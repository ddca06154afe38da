/**
 What one application does to each row of the membership table, and which markets the rows carry
 after whole sequences of them.
 */
module UniverseRows {
  import opened Common
  import opened UniverseSnapshots
  import opened UniverseHistory

  // ---------------------------------------------------------------- one application, row by row

  /** The row is the member's: its market, symbol and attributes, opened on the snapshot date. */
  predicate IsOpened(r: Row, m: Member, asOf: Date) {
    && r.market == m.market && r.symbol == m.symbol && r.attrs == m.attrs
    && r.validFrom == asOf && r.sourceVersion == asOf && r.validTo == None
  }

  /** Everything but attributes and version is as it was. */
  predicate IsRefreshed(r: Row, r': Row, m: Member, asOf: Date) {
    && r'.market == r.market && r'.symbol == r.symbol && r'.validFrom == r.validFrom && r'.validTo == r.validTo
    && r'.attrs == m.attrs && r'.sourceVersion == asOf
  }

  /** An open row of a member is refreshed, any other row is as it was. */
  ghost predicate KeptRow(r: Row, r': Row, ms: seq<Member>, asOf: Date) {
    && (forall m :: m in ms && Open(r) && r.symbol == m.symbol ==> IsRefreshed(r, r', m, asOf))
    && (!Open(r) || r.symbol !in Symbols(ms) ==> r' == r)
  }

  ghost predicate OpenedBy(r: Row, ms: seq<Member>, active: set<string>, asOf: Date) {
    exists m :: m in ms && m.symbol !in active && IsOpened(r, m, asOf)
  }

  ghost predicate OpenedIn(rows: Table, base: Table, m: Member, asOf: Date) {
    exists id :: id in rows && id !in base && IsOpened(rows[id], m, asOf)
  }

  /** What entering members does to a table without the rows to be retired. */
  ghost predicate Entered(base: Table, first: nat, rows: Table, ms: seq<Member>, active: set<string>, asOf: Date) {
    && (forall id :: id in base ==> id in rows && KeptRow(base[id], rows[id], ms, asOf))
    && (forall id :: id in rows && id !in base ==> id >= first && OpenedBy(rows[id], ms, active, asOf))
    && (forall m :: m in ms && m.symbol !in active ==> OpenedIn(rows, base, m, asOf))
  }

  lemma KeptOneMore(r: Row, r1: Row, r2: Row, front: seq<Member>, m: Member, asOf: Date)
    requires KeptRow(r, r1, front, asOf) && m.symbol !in Symbols(front)
    requires if Open(r) && r.symbol == m.symbol then IsRefreshed(r1, r2, m, asOf) else r2 == r1
    ensures KeptRow(r, r2, front + [m], asOf)
  {
    SymbolsOfSnoc(front, m);
    forall x | x in front + [m] && Open(r) && r.symbol == x.symbol ensures IsRefreshed(r, r2, x, asOf) {
      assert x in front || x == m;
      assert x in front ==> x.symbol in Symbols(front);
    }
  }

  lemma OpenedByOneMore(r: Row, front: seq<Member>, m: Member, active: set<string>, asOf: Date)
    requires OpenedBy(r, front, active, asOf) || (m.symbol !in active && IsOpened(r, m, asOf))
    ensures OpenedBy(r, front + [m], active, asOf)
  {
    if OpenedBy(r, front, active, asOf) {
      var x :| x in front && x.symbol !in active && IsOpened(r, x, asOf);
      assert x in front + [m];
    } else {
      assert m in front + [m];
    }
  }

  lemma RefreshEnters(base: Table, first: nat, rows: Table, front: seq<Member>, m: Member, active: set<string>,
                      asOf: Date)
    requires Entered(base, first, rows, front, active, asOf) && m.symbol !in Symbols(front) && m.symbol in active
    ensures Entered(base, first, Refreshed(rows, m, asOf), front + [m], active, asOf)
  {
    var rows' := Refreshed(rows, m, asOf);
    forall id | id in base ensures KeptRow(base[id], rows'[id], front + [m], asOf) {
      KeptOneMore(base[id], rows[id], rows'[id], front, m, asOf);
    }
    forall id | id in rows' && id !in base ensures OpenedBy(rows'[id], front + [m], active, asOf) {
      assert OpenedBy(rows[id], front, active, asOf) && rows[id].symbol !in {m.symbol};
      OpenedByOneMore(rows'[id], front, m, active, asOf);
    }
    forall x | x in front + [m] && x.symbol !in active ensures OpenedIn(rows', base, x, asOf) {
      assert x in front && OpenedIn(rows, base, x, asOf);
      var id :| id in rows && id !in base && IsOpened(rows[id], x, asOf);
      assert rows'[id] == rows[id];
    }
  }

  lemma InsertEnters(base: Table, first: nat, rows: Table, next: nat, front: seq<Member>, m: Member,
                     active: set<string>, asOf: Date)
    requires Entered(base, first, rows, front, active, asOf) && m.symbol !in Symbols(front) && m.symbol !in active
    requires OpenSymbols(base) <= active && next !in base && next !in rows && first <= next
    ensures Entered(base, first, rows[next := NewRow(m, asOf)], front + [m], active, asOf)
  {
    var rows' := rows[next := NewRow(m, asOf)];
    forall id | id in base ensures KeptRow(base[id], rows'[id], front + [m], asOf) {
      assert Open(base[id]) ==> base[id].symbol in OpenSymbols(base);
      KeptOneMore(base[id], rows[id], rows'[id], front, m, asOf);
    }
    forall id | id in rows' && id !in base ensures OpenedBy(rows'[id], front + [m], active, asOf) {
      OpenedByOneMore(rows'[id], front, m, active, asOf);
    }
    forall x | x in front + [m] && x.symbol !in active ensures OpenedIn(rows', base, x, asOf) {
      if x in front {
        var id :| id in rows && id !in base && IsOpened(rows[id], x, asOf);
        assert rows'[id] == rows[id];
      } else {
        assert IsOpened(rows'[next], x, asOf);
      }
    }
  }

  lemma {:induction false} EnterAllEnters(base: Table, next: nat, ms: seq<Member>, active: set<string>, asOf: Date)
    requires (forall id :: id in base ==> id < next) && Distinct(ms) && OpenSymbols(base) <= active
    requires EnterAll(base, next, ms, active, asOf).Some?
    ensures Entered(base, next, EnterAll(base, next, ms, active, asOf).value.0, ms, active, asOf)
  {
    if ms != [] {
      var front, m := ms[..|ms| - 1], ms[|ms| - 1];
      assert ms == front + [m];
      LastIsNew(front, m);
      EnterAllEnters(base, next, front, active, asOf);
      EnterAllAdds(base, next, front, active, asOf);
      var (rows1, next1) := EnterAll(base, next, front, active, asOf).value;
      if m.symbol in active {
        RefreshEnters(base, next, rows1, front, m, active, asOf);
      } else {
        InsertEnters(base, next, rows1, next1, front, m, active, asOf);
      }
    } else {
      assert Symbols(ms) == {};
    }
  }

  /** A row of a symbol that left: deleted when it opened on the snapshot date or later, closed on that date
      otherwise, with all else as it was. */
  ghost predicate IsRetired(r: Row, id: nat, rows': Table, asOf: Date) {
    if r.validFrom >= asOf then id !in rows'
    else
      && id in rows' && rows'[id].validTo == Some(asOf) && rows'[id].validFrom == r.validFrom
      && rows'[id].market == r.market && rows'[id].symbol == r.symbol
      && rows'[id].attrs == r.attrs && rows'[id].sourceVersion == r.sourceVersion
  }

  /** What an application owes a row that was there before: a closed row stays as it is, an open row of a
      member keeps its market and interval and gets the member's attributes, any other is retired. */
  ghost predicate OldRowFate(r: Row, id: nat, rows': Table, ms: seq<Member>, asOf: Date) {
    if !Open(r) then id in rows' && rows'[id] == r
    else if r.symbol !in Symbols(ms) then IsRetired(r, id, rows', asOf)
    else id in rows' && forall m :: m in ms && m.symbol == r.symbol ==> IsRefreshed(r, rows'[id], m, asOf)
  }

  lemma FateOfOldRow(rows: Table, next: nat, ms: seq<Member>, asOf: Date, rows': Table, id: nat)
    requires WellFormed(rows, next) && id in rows
    requires Entered(Retired(rows, Symbols(ms), asOf), next, rows', ms, OpenSymbols(rows), asOf)
    ensures OldRowFate(rows[id], id, rows', ms, asOf)
  {
    var base := Retired(rows, Symbols(ms), asOf);
    if id in base {
      assert KeptRow(base[id], rows'[id], ms, asOf);
    }
  }

  lemma NewRows(rows: Table, next: nat, ms: seq<Member>, asOf: Date, rows': Table)
    requires WellFormed(rows, next)
    requires Entered(Retired(rows, Symbols(ms), asOf), next, rows', ms, OpenSymbols(rows), asOf)
    ensures forall id :: id in rows' && id !in rows ==> OpenedBy(rows'[id], ms, OpenSymbols(rows), asOf)
    ensures forall m :: m in ms && m.symbol !in OpenSymbols(rows) ==> OpenedIn(rows', rows, m, asOf)
  {
    var base := Retired(rows, Symbols(ms), asOf);
    forall m | m in ms && m.symbol !in OpenSymbols(rows) ensures OpenedIn(rows', rows, m, asOf) {
      assert OpenedIn(rows', base, m, asOf);
      var id: nat :| id in rows' && id !in base && IsOpened(rows'[id], m, asOf);
      assert id >= next;
    }
  }

  /** The whole table after an application: the fate of every old row, and new rows for exactly the members that
      were not active, each with its member's market, symbol and attributes and opened on the snapshot date. */
  lemma RowsAfterApply(rows: Table, next: nat, members: seq<Member>, asOf: Date)
    requires WellFormed(rows, next) && Apply(rows, next, Clean(members), asOf).Some?
    ensures var ms, active := Clean(members), OpenSymbols(rows);
      var rows' := Apply(rows, next, ms, asOf).value.0;
      && (forall id :: id in rows ==> OldRowFate(rows[id], id, rows', ms, asOf))
      && (forall id :: id in rows' && id !in rows ==> OpenedBy(rows'[id], ms, active, asOf))
      && (forall m :: m in ms && m.symbol !in active ==> OpenedIn(rows', rows, m, asOf))
  {
    var ms := Clean(members);
    var rows' := Apply(rows, next, ms, asOf).value.0;
    CleanIsLastPerSymbol(members);
    RetireEffect(rows, next, Symbols(ms), asOf);
    EnterAllEnters(Retired(rows, Symbols(ms), asOf), next, ms, OpenSymbols(rows), asOf);
    NewRows(rows, next, ms, asOf, rows');
    forall id | id in rows ensures OldRowFate(rows[id], id, rows', ms, asOf) {
      FateOfOldRow(rows, next, ms, asOf, rows', id);
    }
  }

  // ---------------------------------------------------------------- whole runs

  /** Since when a symbol has been a member without a break, and the market it was given then. */
  datatype Stint = Stint(from: Date, market: string)

  /** The market of a symbol in a cleaned snapshot. */
  function MarketIn(ms: seq<Member>, symbol: string): Option<string> {
    if ms == [] then None
    else if ms[0].symbol == symbol then Some(ms[0].market)
    else MarketIn(ms[1..], symbol)
  }

  function StintOf(snaps: seq<Snapshot>, symbol: string): Option<Stint> {
    if snaps == [] then None
    else
      var last := snaps[|snaps| - 1];
      match MarketIn(Clean(last.members), symbol)
      case None => None
      case Some(market) =>
        var before := StintOf(snaps[..|snaps| - 1], symbol);
        if before.Some? then before else Some(Stint(last.date, market))
  }

  lemma {:induction false} MarketIsGiven(ms: seq<Member>, symbol: string)
    ensures MarketIn(ms, symbol).Some? <==> symbol in Symbols(ms)
    ensures MarketIn(ms, symbol).Some? ==>
      exists m :: m in ms && m.symbol == symbol && m.market == MarketIn(ms, symbol).value
  {
    if ms != [] {
      assert ms == [ms[0]] + ms[1..];
      SymbolsOfCons(ms[0], ms[1..]);
      MarketIsGiven(ms[1..], symbol);
      if ms[0].symbol == symbol {
        assert ms[0] in ms;
      } else if MarketIn(ms, symbol).Some? {
        var m :| m in ms[1..] && m.symbol == symbol && m.market == MarketIn(ms, symbol).value;
        assert m in ms;
      }
    }
  }

  lemma MarketOfMember(ms: seq<Member>, m: Member)
    requires Distinct(ms) && m in ms
    ensures MarketIn(ms, m.symbol) == Some(m.market)
  {
    MarketIsGiven(ms, m.symbol);
    assert m.symbol in Symbols(ms);
  }

  lemma StintsAreOpen(snaps: seq<Snapshot>, symbol: string)
    requires Chronological(snaps) && Replay(snaps).Some? && WellFormed(Replay(snaps).value.0, Replay(snaps).value.1)
    ensures StintOf(snaps, symbol).Some? <==> symbol in OpenSymbols(Replay(snaps).value.0)
  {
    if snaps != [] {
      var front, s := snaps[..|snaps| - 1], snaps[|snaps| - 1];
      AsOfIsTheSnapshotInForce(front, s.date);
      ApplyKeepsWellFormed(Replay(front).value.0, Replay(front).value.1, s.members, s.date);
      MarketIsGiven(Clean(s.members), symbol);
    }
  }

  predicate Carries(r: Row, x: Option<Stint>) {
    x == Some(Stint(r.validFrom, r.market))
  }

  /** One application: an open row carries the stint of its symbol, if those before did. */
  lemma OpenRowCarries(rows: Table, front: seq<Snapshot>, s: Snapshot, rows': Table, id: nat)
    requires id in rows' && Open(rows'[id])
    requires var ms := Clean(s.members);
      && (forall j :: j in rows ==> OldRowFate(rows[j], j, rows', ms, s.date))
      && (id !in rows ==> OpenedBy(rows'[id], ms, OpenSymbols(rows), s.date))
    requires id in rows && Open(rows[id]) ==> Carries(rows[id], StintOf(front, rows[id].symbol))
    requires forall symbol :: StintOf(front, symbol).Some? ==> symbol in OpenSymbols(rows)
    ensures Carries(rows'[id], StintOf(front + [s], rows'[id].symbol))
  {
    var ms := Clean(s.members);
    CleanIsLastPerSymbol(s.members);
    assert (front + [s])[..|front|] == front;
    if id in rows {
      assert OldRowFate(rows[id], id, rows', ms, s.date);
      var m :| m in ms && m.symbol == rows[id].symbol;
      MarketOfMember(ms, m);
    } else {
      var m :| m in ms && m.symbol !in OpenSymbols(rows) && IsOpened(rows'[id], m, s.date);
      MarketOfMember(ms, m);
    }
  }

  lemma {:induction false} OpenRowsCarryTheirStint(snaps: seq<Snapshot>, id: nat)
    requires Chronological(snaps) && Replay(snaps).Some?
    requires id in Replay(snaps).value.0 && Open(Replay(snaps).value.0[id])
    ensures var rows := Replay(snaps).value.0; Carries(rows[id], StintOf(snaps, rows[id].symbol))
  {
    var front, s := snaps[..|snaps| - 1], snaps[|snaps| - 1];
    assert snaps == front + [s];
    AsOfIsTheSnapshotInForce(front, s.date);
    var (rows, next) := Replay(front).value;
    RowsAfterApply(rows, next, s.members, s.date);
    if id in rows && Open(rows[id]) {
      OpenRowsCarryTheirStint(front, id);
    }
    forall symbol | StintOf(front, symbol).Some? ensures symbol in OpenSymbols(rows) {
      StintsAreOpen(front, symbol);
    }
    OpenRowCarries(rows, front, s, Replay(snaps).value.0, id);
  }

  /** The snapshots dated on or before d. */
  function UpTo(snaps: seq<Snapshot>, d: Date): seq<Snapshot> {
    if snaps == [] || snaps[|snaps| - 1].date <= d then snaps else UpTo(snaps[..|snaps| - 1], d)
  }

  lemma InForceBefore(rows: Table, rows': Table, ms: seq<Member>, active: set<string>, asOf: Date, id: nat, d: Date)
    requires (forall j :: j in rows ==> OldRowFate(rows[j], j, rows', ms, asOf)) && d < asOf
    requires id in rows' && (id !in rows ==> OpenedBy(rows'[id], ms, active, asOf))
    requires InForceOn(rows'[id], d)
    ensures id in rows && InForceOn(rows[id], d)
    ensures rows[id].market == rows'[id].market && rows[id].symbol == rows'[id].symbol
    ensures rows[id].validFrom == rows'[id].validFrom
  {
    assert id in rows ==> OldRowFate(rows[id], id, rows', ms, asOf);
    if id in rows && Open(rows[id]) && rows[id].symbol in Symbols(ms) {
      var m :| m in ms && m.symbol == rows[id].symbol;
    }
  }

  /** After any chronological snapshots, a row in force on a date carries the market that its symbol was
      given when its membership, unbroken up to that date, began, and starts on the day it began. */
  lemma {:induction false} RowsInForceCarryTheirMarket(snaps: seq<Snapshot>, id: nat, d: Date)
    requires Chronological(snaps) && Replay(snaps).Some?
    requires id in Replay(snaps).value.0 && InForceOn(Replay(snaps).value.0[id], d)
    ensures var rows := Replay(snaps).value.0; Carries(rows[id], StintOf(UpTo(snaps, d), rows[id].symbol))
  {
    var front, s := snaps[..|snaps| - 1], snaps[|snaps| - 1];
    AsOfIsTheSnapshotInForce(snaps, d);
    if s.date <= d {
      OpenRowsCarryTheirStint(snaps, id);
    } else {
      AsOfIsTheSnapshotInForce(front, d);
      var (rows, next) := Replay(front).value;
      RowsAfterApply(rows, next, s.members, s.date);
      InForceBefore(rows, Replay(snaps).value.0, Clean(s.members), OpenSymbols(rows), s.date, id, d);
      RowsInForceCarryTheirMarket(front, id, d);
    }
  }
}
