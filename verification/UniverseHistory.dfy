/**
 What whole sequences of snapshots leave in the membership table of UniverseSnapshots.
 */
module UniverseHistory {
  import opened Common
  import opened UniverseSnapshots

  // ---------------------------------------------------------------- the rows of one application

  /** What entering a snapshot adds to the retired table: nothing old moves, and exactly the symbols
      that were not active get a row that opens on the snapshot date. */
  ghost predicate Added(base: Table, rows: Table, opening: set<string>, asOf: Date) {
    && (forall id :: id in base ==> id in rows && Span(rows[id]) == Span(base[id]))
    && (forall id :: id in rows && id !in base ==>
          Open(rows[id]) && rows[id].validFrom == asOf && rows[id].symbol in opening)
    && (forall s :: s in opening ==> OpenedFor(base, rows, s))
  }

  ghost predicate OpenedFor(base: Table, rows: Table, s: string) {
    exists id :: id in rows && id !in base && rows[id].symbol == s
  }

  lemma SpansDecideAdded(base: Table, rows: Table, rows': Table, opening: set<string>, asOf: Date)
    requires Added(base, rows, opening, asOf) && SameSpans(rows, rows')
    ensures Added(base, rows', opening, asOf)
  {
    forall id | id in rows' ensures Span(rows'[id]) == Span(rows[id]) { }
    forall s | s in opening ensures OpenedFor(base, rows', s) {
      var id :| id in rows && id !in base && rows[id].symbol == s;
      assert Span(rows'[id]) == Span(rows[id]);
    }
  }

  lemma InsertAdds(base: Table, rows: Table, next: nat, m: Member, opening: set<string>, asOf: Date)
    requires next !in base && next !in rows && Added(base, rows, opening, asOf)
    ensures Added(base, rows[next := NewRow(m, asOf)], opening + {m.symbol}, asOf)
  {
    var rows' := rows[next := NewRow(m, asOf)];
    forall s | s in opening + {m.symbol} ensures OpenedFor(base, rows', s) {
      if s == m.symbol {
        assert rows'[next].symbol == s;
      } else {
        var id :| id in rows && id !in base && rows[id].symbol == s;
        assert rows'[id].symbol == s;
      }
    }
  }

  lemma RefreshAdds(base: Table, rows: Table, m: Member, opening: set<string>, asOf: Date)
    requires Added(base, rows, opening, asOf)
    ensures Added(base, Refreshed(rows, m, asOf), opening, asOf) && Refreshed(rows, m, asOf).Keys == rows.Keys
  {
    assert SameSpans(rows, Refreshed(rows, m, asOf));
    SpansDecideAdded(base, rows, Refreshed(rows, m, asOf), opening, asOf);
  }

  /** One member entered: an active one is refreshed, another gets its row. */
  lemma EnterAdds(base: Table, rows: Table, next: nat, m: Member, active: set<string>, opening: set<string>, asOf: Date)
    requires (forall id :: id in rows ==> id < next) && Added(base, rows, opening, asOf)
    requires Enter(rows, next, m, active, asOf).Some?
    ensures var (rows', next') := Enter(rows, next, m, active, asOf).value;
      && Added(base, rows', if m.symbol in active then opening else opening + {m.symbol}, asOf)
      && (forall id :: id in rows' ==> id < next') && next <= next'
  {
    if m.symbol in active {
      RefreshAdds(base, rows, m, opening, asOf);
    } else {
      InsertAdds(base, rows, next, m, opening, asOf);
    }
  }

  lemma {:induction false} EnterAllAdds(base: Table, next: nat, ms: seq<Member>, active: set<string>, asOf: Date)
    requires forall id :: id in base ==> id < next
    requires EnterAll(base, next, ms, active, asOf).Some?
    ensures var (rows, next') := EnterAll(base, next, ms, active, asOf).value;
      Added(base, rows, Symbols(ms) - active, asOf) && (forall id :: id in rows ==> id < next') && next <= next'
  {
    if ms == [] {
      assert Symbols(ms) == {};
    } else {
      var front, m := ms[..|ms| - 1], ms[|ms| - 1];
      assert ms == front + [m];
      SymbolsOfSnoc(front, m);
      EnterAllAdds(base, next, front, active, asOf);
      var (rows1, next1) := EnterAll(base, next, front, active, asOf).value;
      EnterAdds(base, rows1, next1, m, active, Symbols(front) - active, asOf);
      assert Symbols(ms) - active
          == if m.symbol in active then Symbols(front) - active else Symbols(front) - active + {m.symbol};
    }
  }

  // ---------------------------------------------------------------- disjoint intervals

  predicate Apart(a: Row, b: Row) {
    || (a.validTo.Some? && a.validTo.value <= b.validFrom)
    || (b.validTo.Some? && b.validTo.value <= a.validFrom)
  }

  ghost predicate DisjointIntervals(rows: Table) {
    forall i, j :: i in rows && j in rows && i != j && rows[i].symbol == rows[j].symbol ==> Apart(rows[i], rows[j])
  }

  /** Some symbol that would get a new row still has a closed row that reaches past the snapshot date. */
  ghost predicate ReopensPast(rows: Table, ms: seq<Member>, asOf: Date) {
    exists id :: id in rows && rows[id].validTo.Some? && rows[id].validTo.value > asOf
                 && rows[id].symbol in Symbols(ms) - OpenSymbols(rows)
  }

  lemma RetiredStaysDisjoint(rows: Table, keep: set<string>, asOf: Date)
    requires DisjointIntervals(rows)
    ensures DisjointIntervals(Retired(rows, keep, asOf))
  {
    var rows' := Retired(rows, keep, asOf);
    forall i, j | i in rows' && j in rows' && i != j && rows'[i].symbol == rows'[j].symbol
      ensures Apart(rows'[i], rows'[j])
    {
      assert Apart(rows[i], rows[j]);
    }
  }

  /** Exactly when an application, whatever its date, keeps every symbol's intervals disjoint: when no
      symbol that is being opened has a closed row reaching past the snapshot date. */
  lemma StaysDisjointIff(rows: Table, next: nat, members: seq<Member>, asOf: Date)
    requires WellFormed(rows, next) && DisjointIntervals(rows)
    requires Apply(rows, next, Clean(members), asOf).Some?
    ensures DisjointIntervals(Apply(rows, next, Clean(members), asOf).value.0)
      <==> !ReopensPast(rows, Clean(members), asOf)
  {
    var ms := Clean(members);
    var base := Retired(rows, Symbols(ms), asOf);
    var (rows', next') := Apply(rows, next, ms, asOf).value;
    ApplyKeepsWellFormed(rows, next, members, asOf);
    EnterAllAdds(base, next, ms, OpenSymbols(rows), asOf);
    RetiredStaysDisjoint(rows, Symbols(ms), asOf);
    if ReopensPast(rows, ms, asOf) {
      ReopeningOverlaps(rows, next, ms, asOf, rows');
    } else {
      forall i, j | i in rows' && j in rows' && i != j && rows'[i].symbol == rows'[j].symbol
        ensures Apart(rows'[i], rows'[j])
      {
        NoReopeningKeepsApart(rows, ms, asOf, rows', i, j);
      }
    }
  }

  lemma ReopeningOverlaps(rows: Table, next: nat, ms: seq<Member>, asOf: Date, rows': Table)
    requires ReopensPast(rows, ms, asOf)
    requires Added(Retired(rows, Symbols(ms), asOf), rows', Symbols(ms) - OpenSymbols(rows), asOf)
    ensures !DisjointIntervals(rows')
  {
    var base := Retired(rows, Symbols(ms), asOf);
    var id :| id in rows && rows[id].validTo.Some? && rows[id].validTo.value > asOf
              && rows[id].symbol in Symbols(ms) - OpenSymbols(rows);
    assert id in base && OpenedFor(base, rows', rows[id].symbol);
    var added :| added in rows' && added !in base && rows'[added].symbol == rows[id].symbol;
    assert Span(rows'[id]) == Span(base[id]);
    assert !Apart(rows'[id], rows'[added]);
  }

  lemma NoReopeningKeepsApart(rows: Table, ms: seq<Member>, asOf: Date, rows': Table, i: nat, j: nat)
    requires !ReopensPast(rows, ms, asOf)
    requires var base := Retired(rows, Symbols(ms), asOf);
      DisjointIntervals(base) && Added(base, rows', Symbols(ms) - OpenSymbols(rows), asOf)
    requires i in rows' && j in rows' && i != j && rows'[i].symbol == rows'[j].symbol
    requires Open(rows'[i]) && Open(rows'[j]) ==> i == j
    ensures Apart(rows'[i], rows'[j])
  {
    var base := Retired(rows, Symbols(ms), asOf);
    if i in base && j in base {
      assert Span(rows'[i]) == Span(base[i]) && Span(rows'[j]) == Span(base[j]);
      assert Apart(base[i], base[j]);
    } else if i in base {
      OldIsBeforeNew(rows, ms, asOf, rows', i, j);
    } else if j in base {
      OldIsBeforeNew(rows, ms, asOf, rows', j, i);
    }
  }

  lemma OldIsBeforeNew(rows: Table, ms: seq<Member>, asOf: Date, rows': Table, i: nat, j: nat)
    requires !ReopensPast(rows, ms, asOf)
    requires var base := Retired(rows, Symbols(ms), asOf);
      Added(base, rows', Symbols(ms) - OpenSymbols(rows), asOf) && i in base && j !in base
    requires j in rows' && rows'[i].symbol == rows'[j].symbol
    ensures Apart(rows'[i], rows'[j])
  {
    var base := Retired(rows, Symbols(ms), asOf);
    assert Span(rows'[i]) == Span(base[i]);
    assert rows[i].symbol !in OpenSymbols(rows);
    assert !Open(rows[i]);
  }

  // ---------------------------------------------------------------- constraint violations

  ghost predicate Taken(rows: Table, m: Member, asOf: Date) {
    exists id :: id in rows && rows[id].market == m.market && rows[id].symbol == m.symbol && rows[id].validFrom == asOf
  }

  ghost predicate SomeTaken(rows: Table, ms: seq<Member>, active: set<string>, asOf: Date) {
    exists i :: 0 <= i < |ms| && ms[i].symbol !in active && Taken(rows, ms[i], asOf)
  }

  lemma TakenAfterOthers(base: Table, rows: Table, opening: set<string>, m: Member, asOf: Date)
    requires Added(base, rows, opening, asOf) && m.symbol !in opening
    ensures Taken(rows, m, asOf) <==> Taken(base, m, asOf)
  {
    if id :| id in rows && SameInterval(rows[id], m, asOf) {
      assert id in base && Span(rows[id]) == Span(base[id]);
    }
    if id :| id in base && SameInterval(base[id], m, asOf) {
      assert Span(rows[id]) == Span(base[id]);
    }
  }

  lemma {:induction false} EnterAllFailsIff(base: Table, next: nat, ms: seq<Member>, active: set<string>, asOf: Date)
    requires (forall id :: id in base ==> id < next) && Distinct(ms)
    ensures EnterAll(base, next, ms, active, asOf).None? <==> SomeTaken(base, ms, active, asOf)
  {
    if ms != [] {
      var front, m := ms[..|ms| - 1], ms[|ms| - 1];
      assert ms == front + [m];
      LastIsNew(front, m);
      EnterAllFailsIff(base, next, front, active, asOf);
      if SomeTaken(base, front, active, asOf) {
        var i :| 0 <= i < |front| && front[i].symbol !in active && Taken(base, front[i], asOf);
        assert ms[i] == front[i];
      } else {
        EnterAllAdds(base, next, front, active, asOf);
        TakenAfterOthers(base, EnterAll(base, next, front, active, asOf).value.0, Symbols(front) - active, m, asOf);
        assert ms[|front|] == m;
        assert forall i :: 0 <= i < |front| ==> ms[i] == front[i];
      }
    }
  }

  /** Exactly when an application aborts on the unique interval key: when some symbol that is not active
      already has a row that opened, in the same market, on the snapshot date. */
  lemma AbortsIff(rows: Table, next: nat, members: seq<Member>, asOf: Date)
    requires WellFormed(rows, next)
    ensures Apply(rows, next, Clean(members), asOf).None?
      <==> SomeTaken(rows, Clean(members), OpenSymbols(rows), asOf)
  {
    var ms := Clean(members);
    var base := Retired(rows, Symbols(ms), asOf);
    CleanIsLastPerSymbol(members);
    EnterAllFailsIff(base, next, ms, OpenSymbols(rows), asOf);
    forall i | 0 <= i < |ms| ensures Taken(base, ms[i], asOf) <==> Taken(rows, ms[i], asOf) {
      assert ms[i].symbol in Symbols(ms);
      if id :| id in rows && SameInterval(rows[id], ms[i], asOf) { assert base[id] == rows[id]; }
      if id :| id in base && SameInterval(base[id], ms[i], asOf) { assert base[id] == rows[id]; }
    }
  }

  // ---------------------------------------------------------------- chronological runs

  datatype Snapshot = Snapshot(date: Date, members: seq<Member>)

  ghost predicate Chronological(snaps: seq<Snapshot>) {
    forall i, j :: 0 <= i < j < |snaps| ==> snaps[i].date <= snaps[j].date
  }

  /** The table after applying the snapshots in order to an empty one; None if some call aborted. */
  function Replay(snaps: seq<Snapshot>): Option<(Table, nat)> {
    if snaps == [] then Some((map[], 0))
    else
      match Replay(snaps[..|snaps| - 1])
      case None => None
      case Some((rows, next)) => Apply(rows, next, Clean(snaps[|snaps| - 1].members), snaps[|snaps| - 1].date)
  }

  /** The symbols of the last snapshot dated on or before d; none before the first snapshot. */
  function InForce(snaps: seq<Snapshot>, d: Date): set<string> {
    if snaps == [] then {}
    else if snaps[|snaps| - 1].date <= d then Symbols(Clean(snaps[|snaps| - 1].members))
    else InForce(snaps[..|snaps| - 1], d)
  }

  /** Nothing in the table is dated after `last`. */
  ghost predicate Calm(rows: Table, last: Date) {
    forall id :: id in rows ==>
      rows[id].validFrom <= last && (rows[id].validTo.Some? ==> rows[id].validTo.value <= last)
  }

  lemma CalmMeansNoClash(rows: Table, next: nat, ms: seq<Member>, asOf: Date)
    requires WellFormed(rows, next) && Calm(rows, asOf)
    ensures !ReopensPast(rows, ms, asOf) && !SomeTaken(rows, ms, OpenSymbols(rows), asOf)
  {
    forall i, id | 0 <= i < |ms| && ms[i].symbol !in OpenSymbols(rows) && id in rows
      ensures !SameInterval(rows[id], ms[i], asOf)
    {
      if Open(rows[id]) { assert rows[id].symbol in OpenSymbols(rows); }
    }
  }

  lemma ApplyStaysCalm(rows: Table, next: nat, ms: seq<Member>, asOf: Date)
    requires WellFormed(rows, next) && Calm(rows, asOf) && Apply(rows, next, ms, asOf).Some?
    ensures Calm(Apply(rows, next, ms, asOf).value.0, asOf)
  {
    var base := Retired(rows, Symbols(ms), asOf);
    var rows' := Apply(rows, next, ms, asOf).value.0;
    EnterAllAdds(base, next, ms, OpenSymbols(rows), asOf);
    forall id | id in rows'
      ensures rows'[id].validFrom <= asOf && (rows'[id].validTo.Some? ==> rows'[id].validTo.value <= asOf)
    {
      if id in base { assert Span(rows'[id]) == Span(base[id]); }
    }
  }

  lemma AsOfAfterApply(rows: Table, next: nat, members: seq<Member>, asOf: Date, d: Date)
    requires WellFormed(rows, next) && Calm(rows, asOf) && Apply(rows, next, Clean(members), asOf).Some?
    ensures AsOf(Apply(rows, next, Clean(members), asOf).value.0, d)
         == if asOf <= d then Symbols(Clean(members)) else AsOf(rows, d)
  {
    var ms := Clean(members);
    var base := Retired(rows, Symbols(ms), asOf);
    CleanIsLastPerSymbol(members);
    RetireEffect(rows, next, Symbols(ms), asOf);
    EnterAllEffect(base, next, ms, OpenSymbols(rows), asOf, d);
    if asOf <= d {
      RetiredAsOf(rows, Symbols(ms), asOf, d);
    } else {
      RetireKeepsThePast(rows, Symbols(ms), asOf, d);
    }
  }

  lemma RetiredAsOf(rows: Table, keep: set<string>, asOf: Date, d: Date)
    requires Calm(rows, asOf) && asOf <= d
    ensures AsOf(Retired(rows, keep, asOf), d) == OpenSymbols(rows) * keep
  {
    var base := Retired(rows, keep, asOf);
    forall id | id in rows && Open(rows[id]) && rows[id].symbol in keep ensures rows[id].symbol in AsOf(base, d) {
      assert InForceOn(base[id], d);
    }
    forall id | id in base && InForceOn(base[id], d) ensures rows[id].symbol in OpenSymbols(rows) * keep {
      assert Open(rows[id]);
    }
  }

  /** As-of correctness over whole runs: after any chronological sequence of snapshots no call has
      aborted, every symbol's intervals are disjoint, and for every date the as-of query returns the
      snapshot in force on that date. */
  lemma {:induction false} AsOfIsTheSnapshotInForce(snaps: seq<Snapshot>, d: Date)
    requires Chronological(snaps)
    ensures Replay(snaps).Some?
    ensures var (rows, next) := Replay(snaps).value;
      && WellFormed(rows, next) && DisjointIntervals(rows)
      && (snaps != [] ==> Calm(rows, snaps[|snaps| - 1].date))
      && AsOf(rows, d) == InForce(snaps, d)
  {
    if snaps != [] {
      var front, s := snaps[..|snaps| - 1], snaps[|snaps| - 1];
      AsOfIsTheSnapshotInForce(front, d);
      var (rows, next) := Replay(front).value;
      if front != [] { assert front[|front| - 1].date <= s.date; }
      assert Calm(rows, s.date);
      CalmMeansNoClash(rows, next, Clean(s.members), s.date);
      AbortsIff(rows, next, s.members, s.date);
      ApplyKeepsWellFormed(rows, next, s.members, s.date);
      StaysDisjointIff(rows, next, s.members, s.date);
      ApplyStaysCalm(rows, next, Clean(s.members), s.date);
      AsOfAfterApply(rows, next, s.members, s.date, d);
    }
  }

  lemma ApplyTo(rows: Table, next: nat, a: Member, asOf: Date, rows': Table)
    requires rows' == Retired(rows, {a.symbol}, asOf) && next !in rows'
    requires a.symbol !in OpenSymbols(rows) && !Taken(rows', a, asOf)
    ensures Symbols([a]) == {a.symbol}
    ensures Apply(rows, next, [a], asOf) == Some((rows'[next := NewRow(a, asOf)], next + 1))
  {
    assert a in [a];
    assert Symbols([a]) == {a.symbol};
    assert [a][..0] == [];
    assert EnterAll(rows', next, [], OpenSymbols(rows), asOf) == Some((rows', next));
  }

  /** A back-dated run breaks this: snapshots {A} on day 0, {} on day 5, then {A} again dated day 3
      are all accepted and leave A with two rows in force on day 3. */
  lemma BackDatedRunOverlaps(a: Member) returns (snaps: seq<Snapshot>)
    requires a.symbol != ""
    ensures Replay(snaps).Some? && !DisjointIntervals(Replay(snaps).value.0)
  {
    snaps := [Snapshot(0, [a]), Snapshot(5, []), Snapshot(3, [a])];
    var t1: Table := map[0 := NewRow(a, 0)];
    var t2: Table := map[0 := NewRow(a, 0).(validTo := Some(5))];
    assert Clean([a]) == [a] by { assert [a][..0] == []; }
    ApplyTo(map[], 0, a, 0, map[]);
    assert Replay(snaps[..1]) == Some((t1, 1)) by { assert snaps[..1][..0] == []; }
    assert Symbols([]) == {} && Retired(t1, {}, 5) == t2;
    assert Replay(snaps[..2]) == Some((t2, 1)) by { assert snaps[..2][..1] == snaps[..1]; }
    assert OpenSymbols(t2) == {} && Retired(t2, {a.symbol}, 3) == t2;
    ApplyTo(t2, 1, a, 3, t2);
    var t3 := t2[1 := NewRow(a, 3)];
    assert Replay(snaps) == Some((t3, 2)) by { assert snaps[..3] == snaps; }
    assert !Apart(t3[0], t3[1]);
  }

  // ---------------------------------------------------------------- attributes, counts, idempotence

  /** Every active row of a member carries that member's attributes and the snapshot's version. */
  ghost predicate UpToDate(rows: Table, ms: seq<Member>, asOf: Date) {
    forall id, i :: id in rows && 0 <= i < |ms| && Open(rows[id]) && rows[id].symbol == ms[i].symbol ==>
      rows[id].attrs == ms[i].attrs && rows[id].sourceVersion == asOf
  }

  lemma {:induction false} EnterAllBringsUpToDate(base: Table, next: nat, ms: seq<Member>, active: set<string>,
                                                  asOf: Date)
    requires Distinct(ms) && EnterAll(base, next, ms, active, asOf).Some? && WellFormed(base, next)
    requires OpenSymbols(base) <= active
    ensures UpToDate(EnterAll(base, next, ms, active, asOf).value.0, ms, asOf)
  {
    if ms != [] {
      var front, m := ms[..|ms| - 1], ms[|ms| - 1];
      assert ms == front + [m];
      LastIsNew(front, m);
      EnterAllBringsUpToDate(base, next, front, active, asOf);
      EnterAllAdds(base, next, front, active, asOf);
      var (rows1, next1) := EnterAll(base, next, front, active, asOf).value;
      EnterUpToDate(rows1, next1, front, m, active, asOf, base);
    }
  }

  lemma EnterUpToDate(rows: Table, next: nat, front: seq<Member>, m: Member, active: set<string>, asOf: Date,
                      base: Table)
    requires UpToDate(rows, front, asOf) && Enter(rows, next, m, active, asOf).Some?
    requires m.symbol !in Symbols(front) && OpenSymbols(base) <= active && forall id :: id in rows ==> id < next
    requires Added(base, rows, Symbols(front) - active, asOf)
    ensures UpToDate(Enter(rows, next, m, active, asOf).value.0, front + [m], asOf)
  {
    var rows', ms := Enter(rows, next, m, active, asOf).value.0, front + [m];
    forall id | id in rows && Open(rows[id]) ensures rows[id].symbol in active || rows[id].symbol in Symbols(front) {
      if id in base {
        assert Span(rows[id]) == Span(base[id]);
        assert base[id].symbol in OpenSymbols(base);
      }
    }
    forall id, i | id in rows' && 0 <= i < |ms| && Open(rows'[id]) && rows'[id].symbol == ms[i].symbol
      ensures rows'[id].attrs == ms[i].attrs && rows'[id].sourceVersion == asOf
    {
      if i < |front| {
        assert front[i].symbol in Symbols(front);
      }
    }
  }

  lemma {:induction false} UpToDateRowsStay(rows: Table, next: nat, ms: seq<Member>, active: set<string>, asOf: Date)
    requires UpToDate(rows, ms, asOf) && Symbols(ms) <= active
    ensures EnterAll(rows, next, ms, active, asOf) == Some((rows, next))
  {
    if ms != [] {
      var front, m := ms[..|ms| - 1], ms[|ms| - 1];
      assert ms == front + [m];
      SymbolsOfSnoc(front, m);
      UpToDateParts(rows, front, m, asOf);
      UpToDateRowsStay(rows, next, front, active, asOf);
    }
  }

  lemma UpToDateParts(rows: Table, front: seq<Member>, m: Member, asOf: Date)
    requires UpToDate(rows, front + [m], asOf)
    ensures UpToDate(rows, front, asOf) && Refreshed(rows, m, asOf) == rows
  {
    var ms := front + [m];
    assert ms[|front|] == m && forall i :: 0 <= i < |front| ==> front[i] == ms[i];
  }

  /** Applying the same snapshot again on the same date changes nothing, whatever the date is; and after
      any application every member's active row carries the snapshot's attributes. */
  lemma ReapplyingChangesNothing(rows: Table, next: nat, members: seq<Member>, asOf: Date)
    requires WellFormed(rows, next) && Apply(rows, next, Clean(members), asOf).Some?
    ensures var (rows', next') := Apply(rows, next, Clean(members), asOf).value;
      && UpToDate(rows', Clean(members), asOf)
      && Apply(rows', next', Clean(members), asOf) == Some((rows', next'))
  {
    var ms := Clean(members);
    var (rows', next') := Apply(rows, next, ms, asOf).value;
    CleanIsLastPerSymbol(members);
    RetireEffect(rows, next, Symbols(ms), asOf);
    EnterAllBringsUpToDate(Retired(rows, Symbols(ms), asOf), next, ms, OpenSymbols(rows), asOf);
    ApplyKeepsWellFormed(rows, next, members, asOf);
    NothingToRetire(rows', Symbols(ms), asOf);
    UpToDateRowsStay(rows', next', ms, OpenSymbols(rows'), asOf);
  }

  lemma NothingToRetire(rows: Table, keep: set<string>, asOf: Date)
    requires OpenSymbols(rows) == keep
    ensures Retired(rows, keep, asOf) == rows
  {
    assert forall id :: id in rows && Open(rows[id]) ==> rows[id].symbol in OpenSymbols(rows);
  }

  function OpenIds(rows: Table): set<nat> {
    set id | id in rows && Open(rows[id])
  }

  lemma {:induction false} SizeOfImage(rows: Table, ids: set<nat>)
    requires forall id :: id in ids ==> id in rows
    requires forall i, j :: i in ids && j in ids && rows[i].symbol == rows[j].symbol ==> i == j
    ensures |set id | id in ids :: rows[id].symbol| == |ids|
  {
    var image := set id | id in ids :: rows[id].symbol;
    if ids == {} {
      assert image == {};
    } else {
      var x :| x in ids;
      SizeOfImage(rows, ids - {x});
      assert image == (set id | id in ids - {x} :: rows[id].symbol) + {rows[x].symbol};
    }
  }

  lemma OneOpenRowPerSymbol(rows: Table, next: nat)
    requires WellFormed(rows, next)
    ensures |OpenIds(rows)| == |OpenSymbols(rows)|
  {
    SizeOfImage(rows, OpenIds(rows));
    assert OpenSymbols(rows) == set id | id in OpenIds(rows) :: rows[id].symbol;
  }

  /** The reported counts balance: active rows after = active rows before + added - removed, and the
      active symbols afterwards are exactly the snapshot's. */
  lemma CountsBalance(rows: Table, next: nat, members: seq<Member>, asOf: Date)
    requires WellFormed(rows, next) && Apply(rows, next, Clean(members), asOf).Some?
    ensures var rows' := Apply(rows, next, Clean(members), asOf).value.0;
      var s, a := Symbols(Clean(members)), OpenSymbols(rows);
      && OpenSymbols(rows') == s
      && |OpenIds(rows')| == |OpenIds(rows)| + |s - a| - |a - s|
  {
    var s, a := Symbols(Clean(members)), OpenSymbols(rows);
    ApplyKeepsWellFormed(rows, next, members, asOf);
    OneOpenRowPerSymbol(rows, next);
    OneOpenRowPerSymbol(Apply(rows, next, Clean(members), asOf).value.0,
                        Apply(rows, next, Clean(members), asOf).value.1);
    SizesBalance(s, a);
  }

  lemma SizesBalance(s: set<string>, a: set<string>)
    ensures |s| == |a| + |s - a| - |a - s|
  {
    assert s == (s - a) + (s * a) && a == (a - s) + (s * a);
  }
}
