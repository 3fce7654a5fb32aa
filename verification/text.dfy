/** The string operations the importers apply to CSV cells: Python's
    `lower`, `upper`, `strip`, `replace(c, '')`, `split(c)[0]` and the
    substring test `needle in haystack`. */
module Text {

  /** Characters Python's `str.isspace` accepts, restricted to the Latin-1 range. */
  predicate IsSpace(c: char) {
    c == ' ' || c == '\t' || c == '\n' || c == '\r' || c == '\U{0B}' || c == '\U{0C}'
    || ('\U{1C}' <= c <= '\U{1F}') || c == '\U{85}' || c == '\U{A0}'
  }

  function LowerChar(c: char): char {
    if 'A' <= c <= 'Z' then (c as int - 'A' as int + 'a' as int) as char else c
  }

  function UpperChar(c: char): char {
    if 'a' <= c <= 'z' then (c as int - 'a' as int + 'A' as int) as char else c
  }

  /** `s.lower()` on ASCII letters. */
  function Lower(s: string): string {
    seq(|s|, i requires 0 <= i < |s| => LowerChar(s[i]))
  }

  /** `s.upper()` on ASCII letters. */
  function Upper(s: string): string {
    seq(|s|, i requires 0 <= i < |s| => UpperChar(s[i]))
  }

  /** Leading whitespace removed; only whitespace is removed. */
  function TrimStart(s: string): (r: string)
    ensures |r| <= |s| && r == s[|s| - |r|..]
    ensures r == [] || !IsSpace(r[0])
    ensures forall i :: 0 <= i < |s| - |r| ==> IsSpace(s[i])
  {
    if |s| > 0 && IsSpace(s[0]) then TrimStart(s[1..]) else s
  }

  /** Trailing whitespace removed; only whitespace is removed. */
  function TrimEnd(s: string): (r: string)
    ensures |r| <= |s| && r == s[..|r|]
    ensures r == [] || !IsSpace(r[|r| - 1])
    ensures forall i :: |r| <= i < |s| ==> IsSpace(s[i])
  {
    if |s| > 0 && IsSpace(s[|s| - 1]) then TrimEnd(s[..|s| - 1]) else s
  }

  /** `s.strip()`: the result is the slice of `s` left once the whitespace
      at both ends is cut off. It neither starts nor ends with whitespace,
      it is empty exactly when `s` is all whitespace, and it keeps every
      non-whitespace character of `s`. */
  function Strip(s: string): (r: string)
    ensures r == [] || (!IsSpace(r[0]) && !IsSpace(r[|r| - 1]))
    ensures r == [] <==> forall i :: 0 <= i < |s| ==> IsSpace(s[i])
    ensures forall i :: 0 <= i < |s| && !IsSpace(s[i]) ==> s[i] in r
    ensures forall c :: c in r ==> c in s
    ensures exists k :: IsStrippedAt(s, r, k)
  {
    StripSlice(s);
    StripEnds(s);
    StripAllBlank(s);
    StripKeepsText(s);
    StripOnlyText(s);
    TrimEnd(TrimStart(s))
  }

  /** `r` is the slice of `s` starting at `k`, and everything of `s` before
      and after that slice is whitespace. */
  predicate IsStrippedAt(s: string, r: string, k: int) {
    && 0 <= k <= |s| - |r|
    && r == s[k..k + |r|]
    && (forall i :: 0 <= i < k ==> IsSpace(s[i]))
    && (forall i :: k + |r| <= i < |s| ==> IsSpace(s[i]))
  }

  lemma StripSlice(s: string)
    ensures IsStrippedAt(s, TrimEnd(TrimStart(s)), |s| - |TrimStart(s)|)
  {
    var t := TrimStart(s);
    var k := |s| - |t|;
    SliceOfSuffix(s, t, TrimEnd(t), k);
  }

  /** A prefix `r` of the suffix `t` of `s` is a slice of `s`, and the blanks
      cut from `t` after `r` are blanks of `s`. */
  lemma SliceOfSuffix(s: string, t: string, r: string, k: nat)
    requires k <= |s| && t == s[k..] && |r| <= |t| && r == t[..|r|]
    requires forall i :: 0 <= i < k ==> IsSpace(s[i])
    requires forall i :: |r| <= i < |t| ==> IsSpace(t[i])
    ensures IsStrippedAt(s, r, k)
  {
    assert r == s[k..k + |r|];
    forall i | k + |r| <= i < |s|
      ensures IsSpace(s[i])
    {
      assert s[i] == t[i - k];
    }
  }

  /** Stripping twice is stripping once. */
  lemma StripIdempotent(s: string)
    ensures Strip(Strip(s)) == Strip(s)
  {
    var r := Strip(s);
    if r != [] {
      assert TrimStart(r) == r;
      assert TrimEnd(r) == r;
    }
  }

  lemma StripEnds(s: string)
    ensures var r := TrimEnd(TrimStart(s));
      r == [] || (!IsSpace(r[0]) && !IsSpace(r[|r| - 1]))
  {
    var t := TrimStart(s);
    var r := TrimEnd(t);
    if r != [] {
      assert r[0] == t[0];
    }
  }

  lemma StripAllBlank(s: string)
    ensures TrimEnd(TrimStart(s)) == [] <==> forall i :: 0 <= i < |s| ==> IsSpace(s[i])
  {
    var t := TrimStart(s);
    var r := TrimEnd(t);
    var k := |s| - |t|;
    if r != [] {
      assert r[0] == t[0];
      assert t[0] == s[k];
    }
  }

  lemma StripOnlyText(s: string)
    ensures forall c :: c in TrimEnd(TrimStart(s)) ==> c in s
  {
    var r := TrimEnd(TrimStart(s));
    forall c | c in r
      ensures c in s
    {
      var j :| 0 <= j < |r| && r[j] == c;
      StripCharAt(s, j);
    }
  }

  /** Position `j` of the stripped text is a character of `s`. */
  lemma StripCharAt(s: string, j: nat)
    requires j < |TrimEnd(TrimStart(s))|
    ensures TrimEnd(TrimStart(s))[j] == s[|s| - |TrimStart(s)| + j]
  {
    var t := TrimStart(s);
    var r := TrimEnd(t);
    assert r[j] == t[j];
  }

  lemma StripKeepsText(s: string)
    ensures forall i :: 0 <= i < |s| && !IsSpace(s[i]) ==> s[i] in TrimEnd(TrimStart(s))
  {
    forall i | 0 <= i < |s| && !IsSpace(s[i])
      ensures s[i] in TrimEnd(TrimStart(s))
    {
      StripKeepsAt(s, i);
    }
  }

  lemma StripKeepsAt(s: string, i: nat)
    requires i < |s| && !IsSpace(s[i])
    ensures var t := TrimStart(s);
      && |s| - |t| <= i < |s| - |t| + |TrimEnd(t)|
      && TrimEnd(t)[i - (|s| - |t|)] == s[i]
  {
    var t := TrimStart(s);
    var r := TrimEnd(t);
    var k := i - (|s| - |t|);
    assert 0 <= k < |t| && t[k] == s[i];
    assert k < |r|;
    assert r[k] == t[k];
  }

  /** `s.replace(c, '')`: every occurrence of `c` is dropped and nothing
      else changes count; text without `c` is returned as it is. */
  function RemoveChar(s: string, c: char): (r: string)
    ensures multiset(r) == multiset(s)[c := 0]
    ensures c !in r
    ensures forall x :: x != c ==> (x in r <==> x in s)
    ensures c !in s ==> r == s
  {
    if s == [] then []
    else
      var rest := RemoveChar(s[1..], c);
      assert s == [s[0]] + s[1..];
      if s[0] == c then rest else [s[0]] + rest
  }

  /** A single character is dropped when it is `c` and kept otherwise. */
  lemma RemoveCharOne(x: char, c: char)
    ensures RemoveChar([x], c) == if x == c then [] else [x]
  {
    assert [x][1..] == [];
  }

  /** Removal works piece by piece: the kept characters stay in their
      order. */
  lemma {:induction false} RemoveCharAppend(a: string, b: string, c: char)
    ensures RemoveChar(a + b, c) == RemoveChar(a, c) + RemoveChar(b, c)
  {
    if a == [] {
      assert a + b == b;
    } else {
      assert (a + b)[0] == a[0] && (a + b)[1..] == a[1..] + b;
      RemoveCharAppend(a[1..], b, c);
    }
  }

  /** `s.split(c)[0]`: the part of `s` before its first `c`, or all of `s`. */
  function BeforeFirst(s: string, c: char): (r: string)
    ensures |r| <= |s| && r == s[..|r|]
    ensures c !in r
    ensures |r| < |s| ==> s[|r|] == c
  {
    if s == [] || s[0] == c then [] else [s[0]] + BeforeFirst(s[1..], c)
  }

  /** `needle` occurs in `haystack` starting at offset `i`. */
  predicate OccursAt(haystack: string, needle: string, i: int) {
    0 <= i && i + |needle| <= |haystack| && haystack[i..i + |needle|] == needle
  }

  /** Python's substring test `needle in haystack`. */
  function Contains(haystack: string, needle: string): (r: bool)
    ensures r <==> exists i :: OccursAt(haystack, needle, i)
    decreases |haystack|
  {
    if |needle| > |haystack| then
      assert forall i :: !OccursAt(haystack, needle, i);
      false
    else if haystack[..|needle|] == needle then
      assert OccursAt(haystack, needle, 0);
      true
    else
      var r := Contains(haystack[1..], needle);
      assert forall i :: OccursAt(haystack, needle, i + 1) <==> OccursAt(haystack[1..], needle, i) by {
        forall i ensures OccursAt(haystack, needle, i + 1) <==> OccursAt(haystack[1..], needle, i) {
          if 0 <= i && i + 1 + |needle| <= |haystack| {
            var a, b := haystack[i + 1..i + 1 + |needle|], haystack[1..][i..i + |needle|];
            assert forall j :: 0 <= j < |needle| ==> a[j] == b[j];
            assert a == b;
          }
        }
      }
      assert r <==> exists i :: OccursAt(haystack, needle, i) by {
        if exists i :: OccursAt(haystack, needle, i) {
          var i :| OccursAt(haystack, needle, i);
          assert i != 0;
          assert OccursAt(haystack[1..], needle, i - 1);
        }
        if r {
          var i :| OccursAt(haystack[1..], needle, i);
          assert OccursAt(haystack, needle, i + 1);
        }
      }
      r
  }

  /** Python's `any(k in haystack for k in keywords)`. */
  function ContainsAny(haystack: string, keywords: seq<string>): (r: bool)
    ensures r <==> exists k :: 0 <= k < |keywords| && Contains(haystack, keywords[k])
  {
    if keywords == [] then false
    else
      var rest := ContainsAny(haystack, keywords[1..]);
      assert forall k :: 1 <= k < |keywords| ==> keywords[k] == keywords[1..][k - 1];
      Contains(haystack, keywords[0]) || rest
  }
}
