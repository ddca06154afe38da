/** What the leg merge keeps, and exactly when the database lets it through. */
module LegMergeTheorems {
  import opened Common
  import opened LegMerge

  // ---------------------------------------------------------------- groups partition the rows

  predicate NoneTwice<T(==)>(s: seq<T>) {
    forall i, j :: 0 <= i < j < |s| ==> s[i] != s[j]
  }

  lemma {:induction false} MembersAre(n: Names, rows: Table, ids: seq<int>, key: Key, id: int)
    requires InTable(rows, ids)
    ensures id in Members(n, rows, ids, key) <==> id in ids && KeyOf(n, rows[id]) == key
  {
    if ids != [] {
      var front, last := ids[..|ids| - 1], ids[|ids| - 1];
      assert ids == front + [last];
      MembersAre(n, rows, front, key, id);
    }
  }

  lemma {:induction false} MembersOnce(n: Names, rows: Table, ids: seq<int>, key: Key)
    requires InTable(rows, ids) && NoneTwice(ids)
    ensures NoneTwice(Members(n, rows, ids, key))
  {
    if ids != [] {
      var front, last := ids[..|ids| - 1], ids[|ids| - 1];
      assert ids == front + [last];
      MembersOnce(n, rows, front, key);
      MembersAre(n, rows, front, key, last);
    }
  }

  lemma {:induction false} GroupKeysAre(n: Names, rows: Table, ids: seq<int>, id: int)
    requires InTable(rows, ids)
    ensures NoneTwice(GroupKeys(n, rows, ids))
    ensures id in ids ==> KeyOf(n, rows[id]) in GroupKeys(n, rows, ids)
  {
    if ids != [] {
      var front, last := ids[..|ids| - 1], ids[|ids| - 1];
      assert ids == front + [last];
      GroupKeysAre(n, rows, front, id);
    }
  }

  // ---------------------------------------------------------------- the table after the merge

  function At(table: Table, id: int): Option<Leg> {
    if id in table then Some(table[id]) else None
  }

  /** What becomes of one row when the groups of `keys` have been merged. */
  function Outcome(n: Names, rows: Table, fetched: seq<int>, keys: seq<Key>, id: int): Option<Leg>
    requires InTable(rows, fetched)
  {
    if id !in rows then None
    else
      var key := KeyOf(n, rows[id]);
      var items := Members(n, rows, fetched, key);
      if key in keys && |items| > 1 then
        if id == LeastId(items) then Some(Combined(rows, items, key.symbol)) else None
      else Some(rows[id])
  }

  lemma GroupEffect(rows: Table, items: seq<int>, symbol: string, table: Table, id: int)
    requires InTable(rows, items) && |items| > 1 && MergeGroup(rows, items, symbol, table).Some?
    ensures At(MergeGroup(rows, items, symbol, table).value, id)
         == if id == LeastId(items) then Some(Combined(rows, items, symbol))
            else if id in items then None else At(table, id)
  {
  }

  /** Every group ends as its least row with the combined values; no other row changes. */
  lemma {:induction false} MergeIsOutcome(n: Names, rows: Table, fetched: seq<int>, keys: seq<Key>, id: int)
    requires Fetched(rows, fetched) && NoneTwice(keys) && MergeAll(n, rows, fetched, keys).Some?
    ensures At(MergeAll(n, rows, fetched, keys).value, id) == Outcome(n, rows, fetched, keys, id)
  {
    if keys != [] {
      var front, key := keys[..|keys| - 1], keys[|keys| - 1];
      assert keys == front + [key] && key !in front;
      MergeIsOutcome(n, rows, fetched, front, id);
      NextOutcome(n, rows, fetched, front, key, MergeAll(n, rows, fetched, front).value, id);
      OutcomeSnoc(n, rows, fetched, front, key, id);
    }
  }

  lemma OutcomeSnoc(n: Names, rows: Table, fetched: seq<int>, front: seq<Key>, key: Key, id: int)
    requires InTable(rows, fetched)
    ensures Outcome(n, rows, fetched, front + [key], id)
         == if id in rows && KeyOf(n, rows[id]) == key then Outcome(n, rows, fetched, [key], id)
            else Outcome(n, rows, fetched, front, id)
  {
  }

  /** Merging one more group decides its own rows and no other. */
  lemma NextOutcome(n: Names, rows: Table, fetched: seq<int>, front: seq<Key>, key: Key, table: Table, id: int)
    requires Fetched(rows, fetched) && key !in front && At(table, id) == Outcome(n, rows, fetched, front, id)
    requires MergeGroup(rows, Members(n, rows, fetched, key), key.symbol, table).Some?
    ensures At(MergeGroup(rows, Members(n, rows, fetched, key), key.symbol, table).value, id)
         == if id in rows && KeyOf(n, rows[id]) == key then Outcome(n, rows, fetched, [key], id)
            else Outcome(n, rows, fetched, front, id)
  {
    var items := Members(n, rows, fetched, key);
    MembersAre(n, rows, fetched, key, id);
    if |items| > 1 {
      GroupEffect(rows, items, key.symbol, table, id);
      MembersAre(n, rows, fetched, key, LeastId(items));
    }
  }

  /** A surviving row still belongs to the group it came from. */
  lemma SurvivorKeepsKey(n: Names, rows: Table, fetched: seq<int>, keys: seq<Key>, id: int)
    requires Lawful(n) && Fetched(rows, fetched) && Outcome(n, rows, fetched, keys, id).Some?
    ensures KeyOf(n, Outcome(n, rows, fetched, keys, id).value) == KeyOf(n, rows[id])
  {
  }

  // ---------------------------------------------------------------- one row per group

  ghost predicate Done(n: Names, rows: Table, fetched: seq<int>, after: Table) {
    Fetched(rows, fetched) && MergeAll(n, rows, fetched, GroupKeys(n, rows, fetched)) == Some(after)
  }

  lemma AfterMerge(n: Names, rows: Table, fetched: seq<int>, after: Table, id: int)
    requires Done(n, rows, fetched, after)
    ensures At(after, id) == Outcome(n, rows, fetched, GroupKeys(n, rows, fetched), id)
  {
    GroupKeysAre(n, rows, fetched, id);
    MergeIsOutcome(n, rows, fetched, GroupKeys(n, rows, fetched), id);
  }

  /** The least row of a group is there after the merge, with the combined values if it had company. */
  lemma LeastSurvives(n: Names, rows: Table, fetched: seq<int>, after: Table, key: Key)
    requires Done(n, rows, fetched, after) && Members(n, rows, fetched, key) != []
    ensures var items := Members(n, rows, fetched, key);
      && LeastId(items) in rows && KeyOf(n, rows[LeastId(items)]) == key
      && At(after, LeastId(items))
          == Some(if |items| > 1 then Combined(rows, items, key.symbol) else rows[LeastId(items)])
  {
    var keep := LeastId(Members(n, rows, fetched, key));
    MembersAre(n, rows, fetched, key, keep);
    AfterMerge(n, rows, fetched, after, keep);
    GroupKeysAre(n, rows, fetched, keep);
  }

  lemma OthersAreGone(n: Names, rows: Table, fetched: seq<int>, after: Table, id: int)
    requires Done(n, rows, fetched, after) && id in after
    ensures id in rows
    ensures var items := Members(n, rows, fetched, KeyOf(n, rows[id]));
      items != [] && id == LeastId(items)
  {
    AfterMerge(n, rows, fetched, after, id);
    GroupKeysAre(n, rows, fetched, id);
    var key := KeyOf(n, rows[id]);
    var items := Members(n, rows, fetched, key);
    MembersAre(n, rows, fetched, key, id);
    SurvivorOf(n, rows, fetched, GroupKeys(n, rows, fetched), id, items);
  }

  /** A row that is left of a group that has been processed is its least. */
  lemma SurvivorOf(n: Names, rows: Table, fetched: seq<int>, keys: seq<Key>, id: int, items: seq<int>)
    requires InTable(rows, fetched) && id in rows && KeyOf(n, rows[id]) in keys
    requires items == Members(n, rows, fetched, KeyOf(n, rows[id])) && id in items
    requires Outcome(n, rows, fetched, keys, id).Some?
    ensures id == LeastId(items)
  {
    if |items| <= 1 {
      OneItem(items, id);
    }
  }

  lemma OneItem(items: seq<int>, id: int)
    requires id in items && |items| <= 1
    ensures id == LeastId(items)
  {
  }

  lemma KeyAfter(n: Names, rows: Table, fetched: seq<int>, after: Table, id: int)
    requires Lawful(n) && Done(n, rows, fetched, after) && id in after
    ensures id in rows && KeyOf(n, after[id]) == KeyOf(n, rows[id])
  {
    AfterMerge(n, rows, fetched, after, id);
    SurvivorKeepsKey(n, rows, fetched, GroupKeys(n, rows, fetched), id);
  }

  /** After the merge the rows of a group are its least id alone. */
  lemma SurvivorIsLeast(n: Names, rows: Table, fetched: seq<int>, after: Table, key: Key, id: int)
    requires Lawful(n) && Done(n, rows, fetched, after)
    ensures var items := Members(n, rows, fetched, key);
      (id in after && KeyOf(n, after[id]) == key) <==> (items != [] && id == LeastId(items))
  {
    var items := Members(n, rows, fetched, key);
    if id in after {
      KeyAfter(n, rows, fetched, after, id);
      OthersAreGone(n, rows, fetched, after, id);
    }
    if items != [] {
      LeastSurvives(n, rows, fetched, after, key);
    }
  }

  lemma FirstTwoDiffer(s: seq<int>)
    requires NoneTwice(s) && |s| > 1
    ensures s[0] != s[1]
  {
  }

  lemma OnlyMember(s: seq<int>, x: int)
    requires NoneTwice(s) && forall y :: y in s <==> y == x
    ensures s == [x]
  {
    assert x in s;
    assert forall i :: 0 <= i < |s| ==> s[i] in s;
    if |s| > 1 {
      FirstTwoDiffer(s);
      assert false;
    }
  }

  lemma NoMember(s: seq<int>)
    requires s == [] || s[0] !in s
    ensures s == []
  {
    if s != [] {
      HeadIsMember(s);
      assert false;
    }
  }

  lemma HeadIsMember(s: seq<int>)
    requires s != []
    ensures s[0] in s
  {
  }

  lemma LeftIff(n: Names, rows: Table, fetched: seq<int>, after: Table, fetched': seq<int>, key: Key, id: int)
    requires Lawful(n) && Done(n, rows, fetched, after) && Fetched(after, fetched')
    ensures var items := Members(n, rows, fetched, key);
      id in Members(n, after, fetched', key) <==> (items != [] && id == LeastId(items))
  {
    MembersAre(n, after, fetched', key, id);
    SurvivorIsLeast(n, rows, fetched, after, key, id);
  }

  lemma GroupAfter(n: Names, rows: Table, fetched: seq<int>, after: Table, fetched': seq<int>, key: Key)
    requires Lawful(n) && Done(n, rows, fetched, after) && Fetched(after, fetched')
    ensures var items := Members(n, rows, fetched, key);
      Members(n, after, fetched', key) == if items == [] then [] else [LeastId(items)]
  {
    var items, left := Members(n, rows, fetched, key), Members(n, after, fetched', key);
    MembersOnce(n, after, fetched', key);
    if items == [] {
      if left != [] {
        LeftIff(n, rows, fetched, after, fetched', key, left[0]);
      }
      NoMember(left);
    } else {
      var keep := LeastId(items);
      forall id ensures id in left <==> id == keep {
        LeftIff(n, rows, fetched, after, fetched', key, id);
      }
      OnlyMember(left, keep);
    }
  }

  // ---------------------------------------------------------------- exposure

  lemma OneRow(rows: Table, id: int)
    requires id in rows
    ensures TotalSize(rows, [id]) == Number(rows[id].size)
    ensures Notional(rows, [id]) == Number(rows[id].size) * Number(rows[id].entry)
  {
    assert [id][..0] == [];
    assert TotalSize(rows, []) == 0.0 && Notional(rows, []) == 0.0;
  }

  lemma Quotient(x: real, y: real)
    requires y > 0.0
    ensures y * (x / y) == x
  {
  }

  /** The notional value of the row a group is merged into. */
  lemma CombinedNotional(rows: Table, items: seq<int>, symbol: string)
    requires InTable(rows, items) && items != []
    ensures var leg := Combined(rows, items, symbol);
      Number(leg.size) * Number(leg.entry)
      == if TotalSize(rows, items) > 0.0 then Notional(rows, items)
         else TotalSize(rows, items) * MergedEntry(rows, items)
  {
    if TotalSize(rows, items) > 0.0 {
      Quotient(Notional(rows, items), TotalSize(rows, items));
    }
  }

  lemma {:induction false} NothingHeld(rows: Table, items: seq<int>)
    requires InTable(rows, items) && forall id :: id in items ==> Number(rows[id].size) >= 0.0
    ensures TotalSize(rows, items) >= 0.0
    ensures TotalSize(rows, items) == 0.0 ==> Notional(rows, items) == 0.0
  {
    if items != [] {
      var front, last := items[..|items| - 1], items[|items| - 1];
      assert items == front + [last] && last in items;
      assert forall id :: id in front ==> id in items;
      NothingHeld(rows, front);
    }
  }

  /** A group of rows became the row it should. */
  predicate MergedInto(rows: Table, items: seq<int>, symbol: string, after: Table, left: seq<int>) {
    && InTable(rows, items) && InTable(after, left)
    && left == (if items == [] then [] else [LeastId(items)])
    && (items != [] ==>
          At(after, LeastId(items))
              == Some(if |items| > 1 then Combined(rows, items, symbol) else rows[LeastId(items)]))
  }

  lemma GroupIsMerged(n: Names, rows: Table, fetched: seq<int>, after: Table, fetched': seq<int>, key: Key)
    requires Lawful(n) && Done(n, rows, fetched, after) && Fetched(after, fetched')
    ensures MergedInto(rows, Members(n, rows, fetched, key), key.symbol, after, Members(n, after, fetched', key))
  {
    GroupAfter(n, rows, fetched, after, fetched', key);
    if Members(n, rows, fetched, key) != [] {
      LeastSurvives(n, rows, fetched, after, key);
    }
  }

  /** What one group holds after the merge, from what it held before. */
  lemma GroupHolds(rows: Table, items: seq<int>, symbol: string, after: Table, left: seq<int>)
    requires MergedInto(rows, items, symbol, after, left)
    ensures TotalSize(after, left) == TotalSize(rows, items)
    ensures Notional(after, left) == if |items| > 1 && !(TotalSize(rows, items) > 0.0)
                                     then TotalSize(rows, items) * MergedEntry(rows, items) else Notional(rows, items)
  {
    if items != [] {
      var keep := LeastId(items);
      OneRow(after, keep);
      if |items| == 1 {
        assert items == [keep];
        OneRow(rows, keep);
      } else {
        CombinedNotional(rows, items, symbol);
      }
    }
  }

  /** Every group keeps its total size. */
  lemma MergeConservesSize(n: Names, rows: Table, fetched: seq<int>, after: Table, fetched': seq<int>, key: Key)
    requires Lawful(n) && Done(n, rows, fetched, after) && Fetched(after, fetched')
    ensures TotalSize(after, Members(n, after, fetched', key)) == TotalSize(rows, Members(n, rows, fetched, key))
  {
    GroupIsMerged(n, rows, fetched, after, fetched', key);
    GroupHolds(rows, Members(n, rows, fetched, key), key.symbol, after, Members(n, after, fetched', key));
  }

  /** The sum of size times (entry minus base). */
  function Deviation(rows: Table, ids: seq<int>, base: real): real
    requires InTable(rows, ids)
  {
    if ids == [] then 0.0
    else
      var front, id := ids[..|ids| - 1], ids[|ids| - 1];
      assert id in ids && forall x :: x in front ==> x in ids;
      Deviation(rows, front, base) + Number(rows[id].size) * (Number(rows[id].entry) - base)
  }

  lemma DeviationStep(v: real, t: real, size: real, entry: real, base: real)
    ensures v - t * base + size * (entry - base) == (v + size * entry) - (t + size) * base
  {
  }

  lemma {:induction false} DeviationIs(rows: Table, ids: seq<int>, base: real)
    requires InTable(rows, ids)
    ensures Deviation(rows, ids, base) == Notional(rows, ids) - TotalSize(rows, ids) * base
  {
    if ids != [] {
      var front, id := ids[..|ids| - 1], ids[|ids| - 1];
      assert ids == front + [id] && id in ids && forall x :: x in front ==> x in ids;
      DeviationIs(rows, front, base);
      DeviationStep(Notional(rows, front), TotalSize(rows, front), Number(rows[id].size), Number(rows[id].entry), base);
    }
  }

  /** The entry of the row of a group that was fetched first. */
  function FirstEntry(rows: Table, items: seq<int>): real
    requires InTable(rows, items) && items != []
  {
    var first := items[0];
    assert first in items;
    Number(rows[first].entry)
  }

  /** The group is a single row, or holds a positive total, or the differences of its entries from the
      first one cancel out over its sizes. */
  predicate KeepsValue(rows: Table, items: seq<int>)
    requires InTable(rows, items)
  {
    |items| <= 1 || TotalSize(rows, items) > 0.0 || Deviation(rows, items, FirstEntry(rows, items)) == 0.0
  }

  lemma NotionalKeptIff(rows: Table, items: seq<int>, symbol: string, after: Table, left: seq<int>)
    requires MergedInto(rows, items, symbol, after, left)
    ensures Notional(after, left) == Notional(rows, items) <==> KeepsValue(rows, items)
  {
    GroupHolds(rows, items, symbol, after, left);
    if items != [] {
      DeviationIs(rows, items, FirstEntry(rows, items));
    }
  }

  /** Total size times entry is kept exactly when the group holds a positive total, is a single row,
      or its entries' differences from the first one cancel out over the sizes. */
  lemma MergeConservesNotionalIff(n: Names, rows: Table, fetched: seq<int>, after: Table, fetched': seq<int>, key: Key)
    requires Lawful(n) && Done(n, rows, fetched, after) && Fetched(after, fetched')
    ensures Notional(after, Members(n, after, fetched', key)) == Notional(rows, Members(n, rows, fetched, key))
       <==> KeepsValue(rows, Members(n, rows, fetched, key))
  {
    GroupIsMerged(n, rows, fetched, after, fetched', key);
    NotionalKeptIff(rows, Members(n, rows, fetched, key), key.symbol, after, Members(n, after, fetched', key));
  }

  lemma NonNegativeKeepsValue(rows: Table, items: seq<int>)
    requires InTable(rows, items) && forall id :: id in items ==> Number(rows[id].size) >= 0.0
    ensures KeepsValue(rows, items)
  {
    NothingHeld(rows, items);
    if items != [] {
      DeviationIs(rows, items, FirstEntry(rows, items));
    }
  }

  /** In particular it is kept when no size is negative. */
  lemma MergeConservesNotional(n: Names, rows: Table, fetched: seq<int>, after: Table, fetched': seq<int>, key: Key)
    requires Lawful(n) && Done(n, rows, fetched, after) && Fetched(after, fetched')
    requires forall id :: id in Members(n, rows, fetched, key) ==> Number(rows[id].size) >= 0.0
    ensures Notional(after, Members(n, after, fetched', key)) == Notional(rows, Members(n, rows, fetched, key))
  {
    GroupIsMerged(n, rows, fetched, after, fetched', key);
    NonNegativeKeepsValue(rows, Members(n, rows, fetched, key));
    NotionalKeptIff(rows, Members(n, rows, fetched, key), key.symbol, after, Members(n, after, fetched', key));
  }

  lemma ProductSign(size: real, d: real)
    requires size >= 0.0
    ensures d >= 0.0 ==> size * d >= 0.0
    ensures d <= 0.0 ==> size * d <= 0.0
  {
  }

  /** No size is negative and no entry lies outside [lo, hi]. */
  predicate Within(rows: Table, items: seq<int>, lo: real, hi: real)
    requires InTable(rows, items)
  {
    forall id :: id in items ==> Number(rows[id].size) >= 0.0 && lo <= Number(rows[id].entry) <= hi
  }

  lemma WithinFront(rows: Table, items: seq<int>, lo: real, hi: real)
    requires InTable(rows, items) && items != [] && Within(rows, items, lo, hi)
    ensures var front, last := items[..|items| - 1], items[|items| - 1];
      && last in rows && InTable(rows, front) && Within(rows, front, lo, hi)
      && Number(rows[last].size) >= 0.0 && lo <= Number(rows[last].entry) <= hi
  {
    var front, last := items[..|items| - 1], items[|items| - 1];
    assert items == front + [last] && last in items;
    assert forall id :: id in front ==> id in items;
  }

  lemma {:induction false} DeviationSigns(rows: Table, items: seq<int>, lo: real, hi: real)
    requires InTable(rows, items) && Within(rows, items, lo, hi)
    ensures Deviation(rows, items, lo) >= 0.0 && Deviation(rows, items, hi) <= 0.0
  {
    if items != [] {
      var front, last := items[..|items| - 1], items[|items| - 1];
      WithinFront(rows, items, lo, hi);
      DeviationSigns(rows, front, lo, hi);
      ProductSign(Number(rows[last].size), Number(rows[last].entry) - lo);
      ProductSign(Number(rows[last].size), Number(rows[last].entry) - hi);
    }
  }

  lemma QuotientBetween(x: real, y: real, lo: real, hi: real)
    requires y > 0.0 && y * lo <= x <= y * hi
    ensures lo <= x / y <= hi
  {
    var q := x / y;
    Quotient(x, y);
    assert q < lo ==> y * q < y * lo;
    assert q > hi ==> y * q > y * hi;
  }

  /** The merged entry lies within the entries of the group. */
  lemma MergedEntryBetween(rows: Table, items: seq<int>, lo: real, hi: real)
    requires InTable(rows, items) && items != []
    requires forall id :: id in items ==> Number(rows[id].size) >= 0.0 && lo <= Number(rows[id].entry) <= hi
    ensures lo <= MergedEntry(rows, items) <= hi
  {
    var first := items[0];
    assert first in items;
    if TotalSize(rows, items) > 0.0 {
      assert Within(rows, items, lo, hi);
      DeviationSigns(rows, items, lo, hi);
      DeviationIs(rows, items, lo);
      DeviationIs(rows, items, hi);
      assert TotalSize(rows, items) * lo <= Notional(rows, items);
      assert Notional(rows, items) <= TotalSize(rows, items) * hi;
      QuotientBetween(Notional(rows, items), TotalSize(rows, items), lo, hi);
    }
  }

  const VERBATIM := Names((s: string) => s, (s: string) => s, (s: string) => s)
  const MIXED_KEY := Key(1, "swap", "long", "BTC")
  const MIXED_ROWS: Table := map[
    1 := Leg(Some(1), None, Some("long"), Some("XBT"), Some("BTC"), Some(1.0), Some(10.0)),
    2 := Leg(Some(1), None, Some("long"), Some("XXBT"), Some("BTC"), Some(-1.0), Some(20.0))]
  const MIXED_MERGED: Table := map[
    1 := Leg(Some(1), None, Some("long"), Some("BTC"), Some("BTC"), Some(0.0), Some(10.0))]

  lemma MixedGroup()
    ensures InTable(MIXED_ROWS, [1, 2]) && Lawful(VERBATIM)
    ensures Members(VERBATIM, MIXED_ROWS, [1, 2], MIXED_KEY) == [1, 2]
    ensures GroupKeys(VERBATIM, MIXED_ROWS, [1, 2]) == [MIXED_KEY]
  {
    assert KeyOf(VERBATIM, MIXED_ROWS[1]) == MIXED_KEY && KeyOf(VERBATIM, MIXED_ROWS[2]) == MIXED_KEY;
    assert [] + [1] == [1] && [1] + [2] == [1, 2];
    MixedFirst();
    OneMoreRow(VERBATIM, MIXED_ROWS, [1], 2, MIXED_KEY);
  }

  lemma MixedFirst()
    ensures Members(VERBATIM, MIXED_ROWS, [1], MIXED_KEY) == [1] && GroupKeys(VERBATIM, MIXED_ROWS, [1]) == [MIXED_KEY]
  {
    var none: seq<int> := [];
    assert none + [1] == [1] && KeyOf(VERBATIM, MIXED_ROWS[1]) == MIXED_KEY;
    OneMoreRow(VERBATIM, MIXED_ROWS, none, 1, MIXED_KEY);
  }

  lemma MixedSums()
    requires InTable(MIXED_ROWS, [1, 2])
    ensures TotalSize(MIXED_ROWS, [1, 2]) == 0.0 && Notional(MIXED_ROWS, [1, 2]) == -10.0 && LeastId([1, 2]) == 1
  {
    assert [1, 2][..1] == [1];
    OneRow(MIXED_ROWS, 1);
  }

  lemma MixedMerges()
    ensures Lawful(VERBATIM) && Done(VERBATIM, MIXED_ROWS, [1, 2], MIXED_MERGED) && Fetched(MIXED_MERGED, [1])
  {
    MixedGroup();
    MixedSums();
    var keys := [MIXED_KEY];
    assert keys[..0] == [];
    assert Combined(MIXED_ROWS, [1, 2], "BTC") == MIXED_MERGED[1];
    assert !Blocked(MIXED_ROWS, 1, MIXED_MERGED[1]);
    assert MIXED_ROWS[1 := MIXED_MERGED[1]] - (set id | id in [1, 2] && id != 1) == MIXED_MERGED;
  }

  /** With sizes of both signs exposure can be lost: a leg of 1 at 10 and minus 1 at 20 is worth -10, and
      the merge goes through and leaves a row worth nothing. */
  lemma MixedSignsLoseNotional()
    ensures Done(VERBATIM, MIXED_ROWS, [1, 2], MIXED_MERGED) && Fetched(MIXED_MERGED, [1])
    ensures Notional(MIXED_ROWS, Members(VERBATIM, MIXED_ROWS, [1, 2], MIXED_KEY)) == -10.0
    ensures Notional(MIXED_MERGED, Members(VERBATIM, MIXED_MERGED, [1], MIXED_KEY)) == 0.0
  {
    MixedMerges();
    MixedGroup();
    MixedSums();
    GroupAfter(VERBATIM, MIXED_ROWS, [1, 2], MIXED_MERGED, [1], MIXED_KEY);
    OneRow(MIXED_MERGED, 1);
  }

  // ---------------------------------------------------------------- running it again

  lemma {:induction false} SinglesMergeNothing(n: Names, rows: Table, fetched: seq<int>, keys: seq<Key>)
    requires InTable(rows, fetched) && forall k :: |Members(n, rows, fetched, k)| <= 1
    ensures MergeAll(n, rows, fetched, keys) == Some(rows) && MergedGroups(n, rows, fetched, keys) == 0
  {
    if keys != [] {
      SinglesMergeNothing(n, rows, fetched, keys[..|keys| - 1]);
    }
  }

  /** A second run merges nothing and changes nothing. */
  lemma SecondRunMergesNothing(n: Names, rows: Table, fetched: seq<int>, after: Table, fetched': seq<int>)
    requires Lawful(n) && Done(n, rows, fetched, after) && Fetched(after, fetched')
    ensures Done(n, after, fetched', after)
    ensures MergedGroups(n, after, fetched', GroupKeys(n, after, fetched')) == 0
  {
    forall k ensures |Members(n, after, fetched', k)| <= 1 {
      GroupAfter(n, rows, fetched, after, fetched', k);
    }
    SinglesMergeNothing(n, after, fetched', GroupKeys(n, after, fetched'));
  }

  // ---------------------------------------------------------------- when the database lets it through

  predicate Merging(n: Names, rows: Table, fetched: seq<int>, key: Key)
    requires InTable(rows, fetched)
  {
    |Members(n, rows, fetched, key)| > 1
  }

  /** After the groups in `before`, the row already stands under this symbol in the kept row's slot. */
  predicate Occupies(n: Names, rows: Table, fetched: seq<int>, before: seq<Key>, key: Key, id: int)
    requires InTable(rows, fetched) && Merging(n, rows, fetched, key) && id in rows
  {
    var keep, own := LeastId(Members(n, rows, fetched, key)), KeyOf(n, rows[id]);
    && id != keep && SameSlot(rows[id], rows[keep])
    && if own in before && Merging(n, rows, fetched, own)
       then id == LeastId(Members(n, rows, fetched, own)) && own.symbol == key.symbol
       else rows[id].symbol == Some(key.symbol)
  }

  ghost predicate Free(n: Names, rows: Table, fetched: seq<int>, before: seq<Key>, key: Key)
    requires InTable(rows, fetched)
  {
    Merging(n, rows, fetched, key) ==> forall id :: id in rows ==> !Occupies(n, rows, fetched, before, key, id)
  }

  /** The row of one id stands in the way of a group's update exactly when it occupies its place. */
  lemma ClashIff(n: Names, rows: Table, fetched: seq<int>, before: seq<Key>, key: Key, id: int)
    requires Fetched(rows, fetched) && NoneTwice(before) && MergeAll(n, rows, fetched, before).Some?
    requires Merging(n, rows, fetched, key)
    ensures var items, table := Members(n, rows, fetched, key), MergeAll(n, rows, fetched, before).value;
      (id in table && id != LeastId(items) && Clash(table[id], Combined(rows, items, key.symbol)))
      <==> (id in rows && Occupies(n, rows, fetched, before, key, id))
  {
    MergeIsOutcome(n, rows, fetched, before, id);
  }

  lemma BlockedIff(n: Names, rows: Table, fetched: seq<int>, before: seq<Key>, key: Key)
    requires Fetched(rows, fetched) && NoneTwice(before) && MergeAll(n, rows, fetched, before).Some?
    requires Merging(n, rows, fetched, key)
    ensures var items := Members(n, rows, fetched, key);
      Blocked(MergeAll(n, rows, fetched, before).value, LeastId(items), Combined(rows, items, key.symbol))
      <==> !Free(n, rows, fetched, before, key)
  {
    var items, table := Members(n, rows, fetched, key), MergeAll(n, rows, fetched, before).value;
    var keep, leg := LeastId(items), Combined(rows, items, key.symbol);
    if Blocked(table, keep, leg) {
      var id :| id in table && id != keep && Clash(table[id], leg);
      ClashIff(n, rows, fetched, before, key, id);
    }
    if !Free(n, rows, fetched, before, key) {
      var id :| id in rows && Occupies(n, rows, fetched, before, key, id);
      ClashIff(n, rows, fetched, before, key, id);
    }
  }

  ghost predicate AllFree(n: Names, rows: Table, fetched: seq<int>, keys: seq<Key>)
    requires InTable(rows, fetched)
  {
    forall i :: 0 <= i < |keys| ==> FreeAt(n, rows, fetched, keys, i)
  }

  ghost predicate FreeAt(n: Names, rows: Table, fetched: seq<int>, keys: seq<Key>, i: nat)
    requires InTable(rows, fetched) && i < |keys|
  {
    Free(n, rows, fetched, keys[..i], keys[i])
  }

  lemma FreeAtFront(n: Names, rows: Table, fetched: seq<int>, keys: seq<Key>, i: nat)
    requires InTable(rows, fetched) && i < |keys| - 1
    ensures FreeAt(n, rows, fetched, keys[..|keys| - 1], i) <==> FreeAt(n, rows, fetched, keys, i)
  {
    assert keys[..|keys| - 1][..i] == keys[..i];
  }

  lemma AllFreeSnoc(n: Names, rows: Table, fetched: seq<int>, keys: seq<Key>)
    requires InTable(rows, fetched) && keys != []
    ensures var front := keys[..|keys| - 1];
      AllFree(n, rows, fetched, keys)
      <==> AllFree(n, rows, fetched, front) && Free(n, rows, fetched, front, keys[|keys| - 1])
  {
    var front := keys[..|keys| - 1];
    forall i | 0 <= i < |front| ensures FreeAt(n, rows, fetched, front, i) <==> FreeAt(n, rows, fetched, keys, i) {
      FreeAtFront(n, rows, fetched, keys, i);
    }
    assert FreeAt(n, rows, fetched, keys, |keys| - 1) <==> Free(n, rows, fetched, front, keys[|keys| - 1]);
  }

  lemma {:induction false} MergeAllSomeIff(n: Names, rows: Table, fetched: seq<int>, keys: seq<Key>)
    requires Fetched(rows, fetched) && NoneTwice(keys)
    ensures MergeAll(n, rows, fetched, keys).Some? <==> AllFree(n, rows, fetched, keys)
  {
    if keys != [] {
      var front, key := keys[..|keys| - 1], keys[|keys| - 1];
      MergeAllSomeIff(n, rows, fetched, front);
      AllFreeSnoc(n, rows, fetched, keys);
      if MergeAll(n, rows, fetched, front).Some? && Merging(n, rows, fetched, key) {
        BlockedIff(n, rows, fetched, front, key);
      }
    }
  }

  /** The merge goes through exactly when, group by group in fetch order, no other row already stands
      under the canonical symbol with the kept row's strategy and side: no row still to be deleted or
      left alone, and no group merged before (which can differ only in market type). */
  lemma CommitsIff(n: Names, rows: Table, fetched: seq<int>)
    requires Fetched(rows, fetched)
    ensures var keys := GroupKeys(n, rows, fetched);
      MergeAll(n, rows, fetched, keys).Some? <==> AllFree(n, rows, fetched, keys)
  {
    GroupKeysAre(n, rows, fetched, 0);
    MergeAllSomeIff(n, rows, fetched, GroupKeys(n, rows, fetched));
  }

  lemma TwoMembers(s: seq<int>, a: int, b: int)
    requires a in s && b in s && a != b
    ensures |s| > 1
  {
    var i :| 0 <= i < |s| && s[i] == a;
    var j :| 0 <= j < |s| && s[j] == b;
    assert i != j;
  }

  lemma TwinOccupies(n: Names, rows: Table, fetched: seq<int>, before: seq<Key>, key: Key, id: int)
    requires Fetched(rows, fetched) && id in Members(n, rows, fetched, key) && key !in before
    requires id != LeastId(Members(n, rows, fetched, key)) && rows[id].symbol == Some(key.symbol)
    requires SameSlot(rows[id], rows[LeastId(Members(n, rows, fetched, key))])
    ensures !Free(n, rows, fetched, before, key)
  {
    MembersAre(n, rows, fetched, key, id);
    TwoMembers(Members(n, rows, fetched, key), id, LeastId(Members(n, rows, fetched, key)));
    assert Occupies(n, rows, fetched, before, key, id);
  }

  /** So a group whose canonical spelling is held by a row other than its least id, with the same
      strategy and side, makes the whole merge fail: the update comes before the delete. */
  lemma CanonicalTwinRefused(n: Names, rows: Table, fetched: seq<int>, key: Key, id: int)
    requires Fetched(rows, fetched) && id in Members(n, rows, fetched, key)
    requires id != LeastId(Members(n, rows, fetched, key)) && rows[id].symbol == Some(key.symbol)
    requires SameSlot(rows[id], rows[LeastId(Members(n, rows, fetched, key))])
    ensures MergeAll(n, rows, fetched, GroupKeys(n, rows, fetched)).None?
  {
    var keys := GroupKeys(n, rows, fetched);
    CommitsIff(n, rows, fetched);
    MembersAre(n, rows, fetched, key, id);
    GroupKeysAre(n, rows, fetched, id);
    var i := IndexOf(keys, key);
    TwinOccupies(n, rows, fetched, keys[..i], key, id);
    assert !FreeAt(n, rows, fetched, keys, i);
  }

  lemma IndexOf(keys: seq<Key>, key: Key) returns (i: nat)
    requires key in keys && NoneTwice(keys)
    ensures i < |keys| && keys[i] == key && key !in keys[..i]
  {
    i :| i < |keys| && keys[i] == key;
  }
}
