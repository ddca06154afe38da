/** What the leg merge makes of each row, told by the columns of the rows. */
module LegRows {
  import opened Common
  import opened LegMerge
  import opened LegMergeTheorems

  predicate Missing(s: Option<string>) {
    s == None || s == Some("")
  }

  predicate SameText(n: string -> string, a: Option<string>, b: Option<string>, default_: string) {
    n(if Missing(a) then default_ else a.value) == n(if Missing(b) then default_ else b.value)
  }

  predicate SameStrategy(a: Option<int>, b: Option<int>) {
    a == b || (a == None && b == Some(0)) || (a == Some(0) && b == None)
  }

  /** The symbol a row counts as: its canonical spelling, or the one its symbol has. */
  function Spelling(n: Names, r: Leg): string {
    n.upper(if !Missing(r.canonical) then r.canonical.value
            else n.canon(if Missing(r.symbol) then "" else r.symbol.value))
  }

  /** Two rows of one leg: a missing strategy is 0, a missing market type is swap, and case and white space do
      not matter. */
  predicate SameLeg(n: Names, a: Leg, b: Leg) {
    && SameStrategy(a.strategy, b.strategy) && SameText(n.fold, a.marketType, b.marketType, "swap")
    && SameText(n.fold, a.side, b.side, "") && Spelling(n, a) == Spelling(n, b)
  }

  lemma SameKeyIff(n: Names, a: Leg, b: Leg)
    ensures KeyOf(n, a) == KeyOf(n, b) <==> SameLeg(n, a, b)
  {
  }

  ghost predicate IsFirst(n: Names, rows: Table, id: int)
    requires id in rows
  {
    forall j :: j in rows && SameLeg(n, rows[j], rows[id]) ==> id <= j
  }

  ghost predicate IsAlone(n: Names, rows: Table, id: int)
    requires id in rows
  {
    forall j :: j in rows && SameLeg(n, rows[j], rows[id]) ==> j == id
  }

  lemma GroupIs(n: Names, rows: Table, fetched: seq<int>, id: int, j: int)
    requires Fetched(rows, fetched) && id in rows
    ensures j in Members(n, rows, fetched, KeyOf(n, rows[id])) <==> j in rows && SameLeg(n, rows[j], rows[id])
  {
    MembersAre(n, rows, fetched, KeyOf(n, rows[id]), j);
    if j in rows {
      SameKeyIff(n, rows[j], rows[id]);
    }
  }

  /** A row is left exactly when it is the least of its leg's; no row is added. */
  lemma LeftIffFirst(n: Names, rows: Table, fetched: seq<int>, after: Table, id: int)
    requires Done(n, rows, fetched, after)
    ensures id in after <==> id in rows && IsFirst(n, rows, id)
  {
    if id in rows {
      var items := Members(n, rows, fetched, KeyOf(n, rows[id]));
      GroupIs(n, rows, fetched, id, id);
      GroupIs(n, rows, fetched, id, LeastId(items));
      LeastSurvives(n, rows, fetched, after, KeyOf(n, rows[id]));
      forall j | j in rows && SameLeg(n, rows[j], rows[id]) ensures LeastId(items) <= j {
        GroupIs(n, rows, fetched, id, j);
      }
    }
    if id in after {
      OthersAreGone(n, rows, fetched, after, id);
    }
  }

  lemma AloneIff(n: Names, rows: Table, fetched: seq<int>, id: int)
    requires Fetched(rows, fetched) && id in rows
    ensures var items := Members(n, rows, fetched, KeyOf(n, rows[id]));
      IsAlone(n, rows, id) <==> |items| <= 1
  {
    var items := Members(n, rows, fetched, KeyOf(n, rows[id]));
    MembersOnce(n, rows, fetched, KeyOf(n, rows[id]));
    GroupIs(n, rows, fetched, id, id);
    if |items| > 1 {
      var j := if items[0] == id then items[1] else items[0];
      assert items[0] in items && items[1] in items && j in items;
      FirstTwoDiffer(items);
      GroupIs(n, rows, fetched, id, j);
    }
    forall j | j in rows && SameLeg(n, rows[j], rows[id]) && |items| <= 1 ensures j == id {
      GroupIs(n, rows, fetched, id, j);
    }
  }

  /** What a row that is left holds: all it held when it is alone, and otherwise its own strategy, market type and
      side, the leg's spelling as symbol and canonical symbol, and the total size and merged entry of the rows
      that were its leg's, in the order they were fetched. */
  lemma RowsAfterMerge(n: Names, rows: Table, fetched: seq<int>, after: Table, id: int)
    requires Done(n, rows, fetched, after) && id in after
    ensures id in rows
    ensures var items, r, r' := Members(n, rows, fetched, KeyOf(n, rows[id])), rows[id], after[id];
      && (forall j :: j in items <==> j in rows && SameLeg(n, rows[j], r))
      && (if IsAlone(n, rows, id) then r' == r
          else
            r'.strategy == r.strategy && r'.marketType == r.marketType && r'.side == r.side
            && r'.symbol == Some(Spelling(n, r)) && r'.canonical == Some(Spelling(n, r))
            && r'.size == Some(TotalSize(rows, items)) && r'.entry == Some(MergedEntry(rows, items)))
  {
    OthersAreGone(n, rows, fetched, after, id);
    var key := KeyOf(n, rows[id]);
    var items := Members(n, rows, fetched, key);
    forall j ensures j in items <==> j in rows && SameLeg(n, rows[j], rows[id]) {
      GroupIs(n, rows, fetched, id, j);
    }
    AloneIff(n, rows, fetched, id);
    LeastSurvives(n, rows, fetched, after, key);
  }

  /** A NULL strategy or side never clashes: a group whose kept row has one is never refused. */
  lemma NullsNeverBlock(n: Names, rows: Table, fetched: seq<int>, before: seq<Key>, key: Key)
    requires InTable(rows, fetched) && Members(n, rows, fetched, key) != []
    requires var keep := LeastId(Members(n, rows, fetched, key));
      rows[keep].strategy == None || rows[keep].side == None
    ensures Free(n, rows, fetched, before, key)
  {
  }
}
