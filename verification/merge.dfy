/** Merging an imported batch of holdings into the tracked ones
    (`handle_data_merge`). Holdings are matched by their upper-cased symbol,
    `Key`. */
module Merge {
  import opened Basics
  import opened Records

  const ReplaceAll: string := "Replace all data"
  const AddNewOnly: string := "Add new positions only"
  const UpdateAndAdd: string := "Update existing + add new"

  /** The imported holdings whose key is not in `keys`, in order. Several
      imported holdings with the same new key are all kept. */
  function FreshOnly(news: seq<Holding>, keys: set<string>): (r: seq<Holding>)
    ensures |r| <= |news|
    ensures forall h :: h in r <==> h in news && Key(h) !in keys
    ensures CountsFresh(r, news, keys)
  {
    if news == [] then []
    else
      var rest := FreshOnly(news[1..], keys);
      assert forall h :: h in news <==> h == news[0] || h in news[1..];
      var r := if Key(news[0]) in keys then rest else [news[0]] + rest;
      CountsFreshStep(news, keys, rest, r);
      r
  }

  /** Every imported holding with a new key occurs in `r` as often as in
      the import, and no other holding occurs in `r`. */
  ghost predicate CountsFresh(r: seq<Holding>, news: seq<Holding>, keys: set<string>) {
    forall h :: multiset(r)[h] == if Key(h) in keys then 0 else multiset(news)[h]
  }

  lemma CountsFreshStep(news: seq<Holding>, keys: set<string>, rest: seq<Holding>, r: seq<Holding>)
    requires news != [] && CountsFresh(rest, news[1..], keys)
    requires r == if Key(news[0]) in keys then rest else [news[0]] + rest
    ensures CountsFresh(r, news, keys)
  {
    assert news == [news[0]] + news[1..];
    assert multiset(news) == multiset{news[0]} + multiset(news[1..]);
  }

  /** Filtering works piece by piece: the kept holdings stay in import
      order. */
  lemma {:induction false} FreshOnlyAppend(a: seq<Holding>, b: seq<Holding>, keys: set<string>)
    ensures FreshOnly(a + b, keys) == FreshOnly(a, keys) + FreshOnly(b, keys)
  {
    if a == [] {
      assert a + b == b;
    } else {
      assert (a + b)[0] == a[0] && (a + b)[1..] == a[1..] + b;
      FreshOnlyAppend(a[1..], b, keys);
    }
  }

  /** A single imported holding is kept exactly when its key is new. */
  lemma FreshOnlyOne(h: Holding, keys: set<string>)
    ensures FreshOnly([h], keys) == if Key(h) in keys then [] else [h]
  {
    assert [h][1..] == [];
  }

  /** "Add new positions only": the tracked holdings untouched, followed by
      the imported ones whose key is not tracked yet. */
  function AddNewPositions(existing: seq<Holding>, news: seq<Holding>): (r: seq<Holding>)
    ensures |r| >= |existing| && r[..|existing|] == existing
    ensures forall h :: h in r[|existing|..] <==> h in news && Key(h) !in Keys(existing)
    ensures Keys(r) == Keys(existing) + Keys(news)
    ensures r == existing + FreshOnly(news, Keys(existing))
  {
    var added := FreshOnly(news, Keys(existing));
    var r := existing + added;
    assert r[..|existing|] == existing && r[|existing|..] == added;
    assert forall h :: h in r <==> h in existing || h in added;
    assert Keys(r) == Keys(existing) + Keys(news) by {
      forall k | k in Keys(news) ensures k in Keys(r) {
        var h :| h in news && Key(h) == k;
        if k !in Keys(existing) {
          assert h in added;
        }
      }
    }
    r
  }

  lemma {:induction false} NothingFresh(news: seq<Holding>, keys: set<string>)
    requires Keys(news) <= keys
    ensures FreshOnly(news, keys) == []
  {
    if news != [] {
      assert news[0] in news;
      assert Keys(news[1..]) <= Keys(news) by {
        assert forall h :: h in news[1..] ==> h in news;
      }
      NothingFresh(news[1..], keys);
    }
  }

  /** Adding the same batch twice adds nothing the second time. */
  lemma AddNewIdempotent(existing: seq<Holding>, news: seq<Holding>)
    ensures AddNewPositions(AddNewPositions(existing, news), news) == AddNewPositions(existing, news)
  {
    var once := AddNewPositions(existing, news);
    NothingFresh(news, Keys(once));
    assert once + [] == once;
  }

  /** The position of the first holding with key `key`. */
  function FirstKeyIndex(hs: seq<Holding>, key: string): (r: Option<nat>)
    ensures r.None? <==> key !in Keys(hs)
    ensures r.Some? ==> r.value < |hs| && Key(hs[r.value]) == key
    ensures r.Some? ==> forall j :: 0 <= j < r.value ==> Key(hs[j]) != key
  {
    if hs == [] then None
    else if Key(hs[0]) == key then Some(0)
    else
      assert forall h :: h in hs <==> h == hs[0] || h in hs[1..];
      match FirstKeyIndex(hs[1..], key)
      case Some(i) => Some(i + 1)
      case None => None
  }

  /** Position `i` holds the first holding of its key. */
  predicate FirstOfKey(hs: seq<Holding>, i: int)
    requires 0 <= i < |hs|
  {
    forall j :: 0 <= j < i ==> Key(hs[j]) != Key(hs[i])
  }

  /** A tracked holding with its share count, average cost and date taken
      from an imported one; its symbol and name stay. */
  function Refresh(held: Holding, update: Holding): (r: Holding)
    ensures r.symbol == held.symbol && r.name == held.name
    ensures r.shares == update.shares && r.avgCost == update.avgCost && r.dateAdded == update.dateAdded
  {
    held.(shares := update.shares, avgCost := update.avgCost, dateAdded := update.dateAdded)
  }

  /** Holdings at the same positions have the same keys. */
  predicate SameKeysAt(a: seq<Holding>, b: seq<Holding>)
    requires |a| <= |b|
  {
    forall i :: 0 <= i < |a| ==> Key(b[i]) == Key(a[i])
  }

  /** The first-key search finds the first position with the key. */
  lemma FirstKeyIndexUnique(hs: seq<Holding>, key: string, j: nat)
    requires j < |hs| && Key(hs[j]) == key
    requires forall i :: 0 <= i < j ==> Key(hs[i]) != key
    ensures FirstKeyIndex(hs, key) == Some(j)
  {
    assert hs[j] in hs;
  }

  /** The first-key search only looks at keys. */
  lemma FirstKeyIndexStable(a: seq<Holding>, b: seq<Holding>, key: string)
    requires |a| <= |b| && SameKeysAt(a, b) && key in Keys(a)
    ensures FirstKeyIndex(b, key) == FirstKeyIndex(a, key)
  {
    var j := FirstKeyIndex(a, key).value;
    FirstKeyIndexUnique(b, key, j);
  }

  /** Where the first holding of a key sits in a batch extending `a` key by
      key, inside `a`, it is the first of its key there too. */
  lemma FirstMatchInPrefix(a: seq<Holding>, b: seq<Holding>, key: string, i: nat)
    requires |a| <= |b| && SameKeysAt(a, b) && i < |a|
    ensures FirstKeyIndex(b, key) == Some(i) ==> key == Key(a[i]) && FirstOfKey(a, i)
  {
  }

  /** One imported holding applied under "Update existing + add new": the
      first holding with its key is refreshed, or it is appended when the
      key is new. */
  function UpdateOne(result: seq<Holding>, update: Holding): (r: seq<Holding>)
    ensures |r| == |result| + (if Key(update) in Keys(result) then 0 else 1)
    ensures SameKeysAt(result, r)
    ensures forall i :: 0 <= i < |result| ==> r[i].symbol == result[i].symbol && r[i].name == result[i].name
    ensures Key(update) !in Keys(result) ==> r == result + [update]
    ensures Key(update) in Keys(result) ==>
      var i := FirstKeyIndex(result, Key(update)).value;
      r[i] == Refresh(result[i], update) && forall j :: 0 <= j < |result| && j != i ==> r[j] == result[j]
    ensures Keys(r) == Keys(result) + {Key(update)}
  {
    match FirstKeyIndex(result, Key(update))
    case None =>
      KeysAppendOne(result, update);
      result + [update]
    case Some(i) =>
      var r := result[i := Refresh(result[i], update)];
      KeysOfSameLength(result, r);
      r
  }

  lemma KeysAppendOne(hs: seq<Holding>, h: Holding)
    ensures Keys(hs + [h]) == Keys(hs) + {Key(h)}
  {
    assert forall g :: g in hs + [h] <==> g in hs || g == h;
  }

  /** Two equally long batches with the same key at every position have
      the same keys. */
  lemma KeysOfSameLength(a: seq<Holding>, b: seq<Holding>)
    requires |a| == |b| && SameKeysAt(a, b)
    ensures Keys(a) == Keys(b)
  {
    forall k | k in Keys(a)
      ensures k in Keys(b)
    {
      var h :| h in a && Key(h) == k;
      var j :| 0 <= j < |a| && a[j] == h;
      assert Key(b[j]) == k;
    }
    forall k | k in Keys(b)
      ensures k in Keys(a)
    {
      var h :| h in b && Key(h) == k;
      var j :| 0 <= j < |b| && b[j] == h;
      assert Key(a[j]) == k;
    }
  }

  /** "Update existing + add new": the imported holdings applied one after
      the other, each seeing the effect of the ones before it. */
  function UpdateAll(result: seq<Holding>, news: seq<Holding>): (r: seq<Holding>)
    ensures |r| >= |result| && SameKeysAt(result, r)
    ensures forall i :: 0 <= i < |result| ==> r[i].symbol == result[i].symbol && r[i].name == result[i].name
    ensures Keys(r) == Keys(result) + Keys(news)
    ensures forall i :: |result| <= i < |r| ==> Key(r[i]) in Keys(news)
    decreases |news|
  {
    if news == [] then result
    else
      var front := news[..|news| - 1];
      var last := news[|news| - 1];
      assert forall h :: h in news <==> h in front || h == last;
      var mid := UpdateAll(result, front);
      assert Keys(front) <= Keys(news);
      UpdateOne(mid, last)
  }

  /** The merge; an unknown strategy leaves the tracked holdings as they
      are. */
  function HandleDataMerge(existing: seq<Holding>, news: seq<Holding>, strategy: string): (r: seq<Holding>)
    ensures strategy == ReplaceAll ==> r == news
    ensures strategy == AddNewOnly ==> r == AddNewPositions(existing, news)
    ensures strategy == UpdateAndAdd ==> r == UpdateAll(existing, news)
    ensures strategy !in {ReplaceAll, AddNewOnly, UpdateAndAdd} ==> r == existing
    ensures strategy != ReplaceAll ==> Keys(existing) <= Keys(r)
  {
    if strategy == ReplaceAll then news
    else if strategy == AddNewOnly then AddNewPositions(existing, news)
    else if strategy == UpdateAndAdd then UpdateAll(existing, news)
    else existing
  }

  /** Merging an empty import changes nothing, except that "Replace all
      data" empties the portfolio. */
  lemma EmptyImport(existing: seq<Holding>, strategy: string)
    ensures HandleDataMerge(existing, [], strategy) == (if strategy == ReplaceAll then [] else existing)
  {
    assert existing + [] == existing;
  }

  /** Both adding strategies end up tracking exactly the same keys. */
  lemma StrategiesAgreeOnKeys(existing: seq<Holding>, news: seq<Holding>)
    ensures Keys(HandleDataMerge(existing, news, AddNewOnly)) == Keys(HandleDataMerge(existing, news, UpdateAndAdd))
  {
  }

  lemma KeysOfFront(news: seq<Holding>)
    requires news != []
    ensures Keys(news) == Keys(news[..|news| - 1]) + {Key(news[|news| - 1])}
  {
    var front := news[..|news| - 1];
    assert news == front + [news[|news| - 1]];
    assert forall h :: h in news <==> h in front || h == news[|news| - 1];
  }

  lemma UpdateAllStep(result: seq<Holding>, news: seq<Holding>)
    requires news != []
    ensures UpdateAll(result, news) == UpdateOne(UpdateAll(result, news[..|news| - 1]), news[|news| - 1])
  {
  }

  /** Updating adds one holding per imported key that was not tracked. */
  lemma {:induction false} UpdateCount(existing: seq<Holding>, news: seq<Holding>)
    ensures |UpdateAll(existing, news)| == |existing| + |Keys(news) - Keys(existing)|
    decreases |news|
  {
    if news != [] {
      var front := news[..|news| - 1];
      var last := news[|news| - 1];
      UpdateCount(existing, front);
      KeysOfFront(news);
      UpdateAllStep(existing, news);
      NewKeysStep(Keys(existing), Keys(front), Key(last));
    }
  }

  /** Adding one key to the imported keys adds one new key exactly when it
      is neither tracked nor imported already. */
  lemma NewKeysStep(tracked: set<string>, imported: set<string>, k: string)
    ensures |(imported + {k}) - tracked| == |imported - tracked| + (if k in tracked || k in imported then 0 else 1)
  {
    if k in tracked || k in imported {
      assert (imported + {k}) - tracked == imported - tracked;
    } else {
      assert (imported + {k}) - tracked == (imported - tracked) + {k};
    }
  }

  /** Updating leaves alone every tracked holding whose key is not
      imported, and every tracked holding that is not the first of its key:
      only the first match of a key is ever refreshed. */
  lemma {:induction false} UpdateLeavesOthers(existing: seq<Holding>, news: seq<Holding>, i: nat)
    requires i < |existing|
    requires Key(existing[i]) !in Keys(news) || !FirstOfKey(existing, i)
    ensures UpdateAll(existing, news)[i] == existing[i]
    decreases |news|
  {
    if news != [] {
      var front := news[..|news| - 1];
      var last := news[|news| - 1];
      var r0 := UpdateAll(existing, front);
      KeysOfFront(news);
      UpdateLeavesOthers(existing, front, i);
      FirstMatchInPrefix(existing, r0, Key(last), i);
    }
  }

  /** The last imported holding with key `key`. */
  function LastWithKey(news: seq<Holding>, key: string): (h: Holding)
    requires key in Keys(news)
    ensures h in news && Key(h) == key
    decreases |news|
  {
    var last := news[|news| - 1];
    KeysOfFront(news);
    if Key(last) == key then last else LastWithKey(news[..|news| - 1], key)
  }

  /** Applying a holding leaves the first holding of its key with the
      holding's figures. */
  lemma UpdateOneSameKey(result: seq<Holding>, update: Holding)
    ensures var r := UpdateOne(result, update);
      var i := FirstKeyIndex(r, Key(update));
      && i.Some?
      && r[i.value].shares == update.shares
      && r[i.value].avgCost == update.avgCost
      && r[i.value].dateAdded == update.dateAdded
  {
    var r := UpdateOne(result, update);
    if Key(update) in Keys(result) {
      FirstKeyIndexStable(result, r, Key(update));
    } else {
      FirstKeyIndexUnique(r, Key(update), |result|);
    }
  }

  /** Applying a holding does not move or touch the first holding of any
      other tracked key. */
  lemma UpdateOneOtherKey(result: seq<Holding>, update: Holding, key: string)
    requires key != Key(update) && key in Keys(result)
    ensures FirstKeyIndex(UpdateOne(result, update), key) == FirstKeyIndex(result, key)
    ensures var i := FirstKeyIndex(result, key).value;
      UpdateOne(result, update)[i] == result[i]
  {
    FirstKeyIndexStable(result, UpdateOne(result, update), key);
  }

  /** After updating, the first holding of every imported key carries the
      share count, average cost and date of the last imported holding with
      that key. */
  lemma {:induction false} LastUpdateWins(existing: seq<Holding>, news: seq<Holding>, key: string)
    requires key in Keys(news)
    ensures var r := UpdateAll(existing, news);
      var i := FirstKeyIndex(r, key);
      && i.Some?
      && r[i.value].shares == LastWithKey(news, key).shares
      && r[i.value].avgCost == LastWithKey(news, key).avgCost
      && r[i.value].dateAdded == LastWithKey(news, key).dateAdded
    decreases |news|
  {
    var front := news[..|news| - 1];
    var last := news[|news| - 1];
    var r0 := UpdateAll(existing, front);
    KeysOfFront(news);
    if Key(last) == key {
      UpdateOneSameKey(r0, last);
    } else {
      LastUpdateWins(existing, front, key);
      UpdateOneOtherKey(r0, last, key);
    }
  }
}
