/**
 Merging the position rows that belong to one leg: same strategy, market type, side and canonical
 symbol. The rows are a table by id with a unique constraint on (strategy, symbol, side), checked at
 each update; a violation rolls the whole merge back.
 */
module LegMerge {
  import opened Common

  /** A position row; every column may be NULL. */
  datatype Leg = Leg(strategy: Option<int>, marketType: Option<string>, side: Option<string>, symbol: Option<string>,
                     canonical: Option<string>, size: Option<real>, entry: Option<real>)

  type Table = map<int, Leg>

  datatype Key = Key(strategy: int, marketType: string, side: string, symbol: string)

  /** The text functions of the source: strip and lower-case, canonical symbol, upper-case. */
  datatype Names = Names(fold: string -> string, canon: string -> string, upper: string -> string)

  ghost predicate Lawful(n: Names) {
    (forall s :: n.upper(n.upper(s)) == n.upper(s)) && n.upper(n.canon("")) == ""
  }

  /** A NULL or empty text counts as missing. */
  function Or(s: Option<string>, default_: string): string {
    if s.Some? && s.value != "" then s.value else default_
  }

  function Number(x: Option<real>): real {
    if x.Some? then x.value else 0.0
  }

  function KeyOf(n: Names, r: Leg): Key {
    Key(if r.strategy.Some? then r.strategy.value else 0,
        n.fold(Or(r.marketType, "swap")), n.fold(Or(r.side, "")),
        n.upper(Or(r.canonical, n.canon(Or(r.symbol, "")))))
  }

  // ---------------------------------------------------------------- groups

  /** The ids a query returned, each once. */
  ghost predicate Fetched(rows: Table, ids: seq<int>) {
    (forall id :: id in ids <==> id in rows) && forall i, j :: 0 <= i < j < |ids| ==> ids[i] != ids[j]
  }

  predicate InTable(rows: Table, ids: seq<int>) {
    forall id :: id in ids ==> id in rows
  }

  /** The ids of one group, in the order they were fetched. */
  function Members(n: Names, rows: Table, ids: seq<int>, key: Key): (m: seq<int>)
    requires InTable(rows, ids)
    ensures InTable(rows, m)
  {
    if ids == [] then []
    else
      var front, id := ids[..|ids| - 1], ids[|ids| - 1];
      assert id in ids && forall x :: x in front ==> x in ids;
      Members(n, rows, front, key) + if KeyOf(n, rows[id]) == key then [id] else []
  }

  /** The groups in the order their first rows were fetched. */
  function GroupKeys(n: Names, rows: Table, ids: seq<int>): seq<Key>
    requires InTable(rows, ids)
  {
    if ids == [] then []
    else
      var front, id := ids[..|ids| - 1], ids[|ids| - 1];
      assert id in ids && forall x :: x in front ==> x in ids;
      var keys := GroupKeys(n, rows, front);
      if KeyOf(n, rows[id]) in keys then keys else keys + [KeyOf(n, rows[id])]
  }

  // ---------------------------------------------------------------- one group

  function TotalSize(rows: Table, ids: seq<int>): real
    requires InTable(rows, ids)
  {
    if ids == [] then 0.0
    else
      var front, id := ids[..|ids| - 1], ids[|ids| - 1];
      assert id in ids && forall x :: x in front ==> x in ids;
      TotalSize(rows, front) + Number(rows[id].size)
  }

  function Notional(rows: Table, ids: seq<int>): real
    requires InTable(rows, ids)
  {
    if ids == [] then 0.0
    else
      var front, id := ids[..|ids| - 1], ids[|ids| - 1];
      assert id in ids && forall x :: x in front ==> x in ids;
      Notional(rows, front) + Number(rows[id].size) * Number(rows[id].entry)
  }

  function LeastId(ids: seq<int>): (m: int)
    requires ids != []
    ensures m in ids && forall id :: id in ids ==> m <= id
  {
    var front, last := ids[..|ids| - 1], ids[|ids| - 1];
    assert ids == front + [last];
    if front == [] then last else Min(LeastId(front), last)
  }

  function MergedEntry(rows: Table, ids: seq<int>): real
    requires InTable(rows, ids) && ids != []
  {
    var first := ids[0];
    assert first in ids;
    if TotalSize(rows, ids) > 0.0 then Notional(rows, ids) / TotalSize(rows, ids) else Number(rows[first].entry)
  }

  function Combined(rows: Table, ids: seq<int>, symbol: string): Leg
    requires InTable(rows, ids) && ids != []
  {
    rows[LeastId(ids)].(symbol := Some(symbol), canonical := Some(symbol),
                        size := Some(TotalSize(rows, ids)), entry := Some(MergedEntry(rows, ids)))
  }

  /** The unique constraint; a NULL column never equals anything. */
  predicate SameSlot(a: Leg, b: Leg) {
    a.strategy.Some? && a.strategy == b.strategy && a.side.Some? && a.side == b.side
  }

  predicate Clash(a: Leg, b: Leg) {
    SameSlot(a, b) && a.symbol.Some? && a.symbol == b.symbol
  }

  predicate Blocked(table: Table, keep: int, leg: Leg) {
    exists id :: id in table && id != keep && Clash(table[id], leg)
  }

  /** One group: the least id takes over, then the others are deleted. */
  function MergeGroup(rows: Table, ids: seq<int>, symbol: string, table: Table): Option<Table>
    requires InTable(rows, ids)
  {
    if |ids| <= 1 then Some(table)
    else
      var keep, leg := LeastId(ids), Combined(rows, ids, symbol);
      if Blocked(table, keep, leg) then None
      else Some(table[keep := leg] - (set id | id in ids && id != keep))
  }

  /** The groups of `keys` one after the other; None when an update violates the constraint. */
  function MergeAll(n: Names, rows: Table, fetched: seq<int>, keys: seq<Key>): Option<Table>
    requires InTable(rows, fetched)
  {
    if keys == [] then Some(rows)
    else
      var front, key := keys[..|keys| - 1], keys[|keys| - 1];
      var before := MergeAll(n, rows, fetched, front);
      if before.None? then None else MergeGroup(rows, Members(n, rows, fetched, key), key.symbol, before.value)
  }

  function MergedGroups(n: Names, rows: Table, fetched: seq<int>, keys: seq<Key>): nat
    requires InTable(rows, fetched)
  {
    if keys == [] then 0
    else
      MergedGroups(n, rows, fetched, keys[..|keys| - 1])
      + if |Members(n, rows, fetched, keys[|keys| - 1])| > 1 then 1 else 0
  }

  // ---------------------------------------------------------------- the script

  class Positions {
    var rows: Table

    constructor (rows: Table)
      ensures this.rows == rows
    {
      this.rows := rows;
    }

    /** `fetched` is the order in which the query returns the rows. Returns the number of merged groups,
        or an error when the database refuses an update. */
    method MergeDuplicateLegs(n: Names, fetched: seq<int>, dryRun: bool) returns (merged: Result<nat, string>)
      requires Fetched(rows, fetched)
      modifies this
      ensures match Processed(n, old(rows), fetched, GroupKeys(n, old(rows), fetched), dryRun)
              case Some(table) =>
                rows == table
                && merged == Ok(MergedGroups(n, old(rows), fetched, GroupKeys(n, old(rows), fetched)))
              case None => rows == old(rows) && merged.Err?
    {
      var keys, groups := GroupRows(n, rows, fetched);
      var table, count := ProcessGroups(n, rows, fetched, keys, groups, dryRun);
      if table.None? {
        return Err("unique violation");
      }
      rows := table.value;
      merged := Ok(count);
    }
  }

  function Processed(n: Names, rows: Table, fetched: seq<int>, keys: seq<Key>, dryRun: bool): Option<Table>
    requires InTable(rows, fetched)
  {
    if dryRun then Some(rows) else MergeAll(n, rows, fetched, keys)
  }

  /** The loop of the transaction; None when an update is refused. */
  method ProcessGroups(n: Names, rows: Table, fetched: seq<int>, keys: seq<Key>, groups: map<Key, seq<int>>,
                       dryRun: bool)
      returns (table: Option<Table>, count: nat)
    requires InTable(rows, fetched)
    requires forall k :: k in keys ==> k in groups && groups[k] == Members(n, rows, fetched, k)
    ensures table == Processed(n, rows, fetched, keys, dryRun)
    ensures table.Some? ==> count == MergedGroups(n, rows, fetched, keys)
  {
    table, count := Some(rows), 0;
    var i := 0;
    while i < |keys|
      invariant 0 <= i <= |keys| && table.Some?
      invariant count == MergedGroups(n, rows, fetched, keys[..i])
      invariant table == Processed(n, rows, fetched, keys[..i], dryRun)
    {
      assert keys[..i + 1][..i] == keys[..i] && keys[i] in keys;
      var items := groups[keys[i]];
      if |items| > 1 {
        count := count + 1;
        if !dryRun {
          table := MergeGroup(rows, items, keys[i].symbol, table.value);
          if table.None? {
            RefusedOnce(n, rows, fetched, keys, i + 1);
            return;
          }
        }
      }
      i := i + 1;
    }
    assert keys[..i] == keys;
  }

  lemma OneMoreRow(n: Names, rows: Table, ids: seq<int>, id: int, key: Key)
    requires InTable(rows, ids) && InTable(rows, ids + [id]) && id in rows
    ensures Members(n, rows, ids + [id], key)
      == Members(n, rows, ids, key) + if KeyOf(n, rows[id]) == key then [id] else []
    ensures var keys, own := GroupKeys(n, rows, ids), KeyOf(n, rows[id]);
      GroupKeys(n, rows, ids + [id]) == if own in keys then keys else keys + [own]
  {
    assert (ids + [id])[..|ids|] == ids;
  }

  ghost predicate Grouped(n: Names, rows: Table, ids: seq<int>, keys: seq<Key>, groups: map<Key, seq<int>>)
    requires InTable(rows, ids)
  {
    && keys == GroupKeys(n, rows, ids) && (forall k :: k in groups <==> k in keys)
    && (forall k :: k in groups ==> groups[k] == Members(n, rows, ids, k))
  }

  lemma GroupedNext(n: Names, rows: Table, ids: seq<int>, id: int, keys: seq<Key>, groups: map<Key, seq<int>>)
    requires InTable(rows, ids) && InTable(rows, ids + [id]) && id in rows && Grouped(n, rows, ids, keys, groups)
    ensures var key := KeyOf(n, rows[id]);
      Grouped(n, rows, ids + [id], if key in groups then keys else keys + [key],
              groups[key := if key in groups then groups[key] + [id] else [id]])
  {
    var key := KeyOf(n, rows[id]);
    var groups' := groups[key := if key in groups then groups[key] + [id] else [id]];
    OneMoreRow(n, rows, ids, id, key);
    NoMembers(n, rows, ids, key);
    forall k | k in groups' ensures groups'[k] == Members(n, rows, ids + [id], k) {
      OneMoreRow(n, rows, ids, id, k);
    }
  }

  lemma {:induction false} NoMembers(n: Names, rows: Table, ids: seq<int>, key: Key)
    requires InTable(rows, ids)
    ensures key !in GroupKeys(n, rows, ids) ==> Members(n, rows, ids, key) == []
  {
    if ids != [] {
      var front, id := ids[..|ids| - 1], ids[|ids| - 1];
      assert id in ids && forall x :: x in front ==> x in ids;
      NoMembers(n, rows, front, key);
    }
  }

  method GroupRows(n: Names, rows: Table, fetched: seq<int>) returns (keys: seq<Key>, groups: map<Key, seq<int>>)
    requires InTable(rows, fetched)
    ensures keys == GroupKeys(n, rows, fetched)
    ensures forall k :: k in keys ==> k in groups && groups[k] == Members(n, rows, fetched, k)
  {
    keys, groups := [], map[];
    var i := 0;
    while i < |fetched|
      invariant 0 <= i <= |fetched| && InTable(rows, fetched[..i])
      invariant Grouped(n, rows, fetched[..i], keys, groups)
    {
      var id := fetched[i];
      var key := KeyOf(n, rows[id]);
      assert fetched[..i + 1] == fetched[..i] + [id] && InTable(rows, fetched[..i + 1]);
      GroupedNext(n, rows, fetched[..i], id, keys, groups);
      if key !in groups {
        keys := keys + [key];
        groups := groups[key := [id]];
      } else {
        groups := groups[key := groups[key] + [id]];
      }
      i := i + 1;
    }
    assert fetched[..i] == fetched;
  }

  lemma {:induction false} RefusedOnce(n: Names, rows: Table, fetched: seq<int>, keys: seq<Key>, i: nat)
    requires InTable(rows, fetched) && i <= |keys| && MergeAll(n, rows, fetched, keys[..i]).None?
    ensures MergeAll(n, rows, fetched, keys).None?
    decreases |keys| - i
  {
    if i < |keys| {
      assert keys[..i + 1][..i] == keys[..i];
      RefusedOnce(n, rows, fetched, keys, i + 1);
    } else {
      assert keys[..i] == keys;
    }
  }
}
