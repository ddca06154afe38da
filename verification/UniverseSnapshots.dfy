/**
 The point-in-time membership table that apply_snapshot maintains for one universe
 (scripts/refresh_public_universe_snapshots.py), read back with the as-of query of
 app/services/universe.py.

 A table is a map from row id to row. Dates are integers. The table's two constraints,
 valid_to > valid_from and the unique interval key, are part of the model.
 */
module UniverseSnapshots {
  import opened Common

  type Date = int

  datatype Attrs = Attrs(name: string, weight: Option<real>, rank: Option<int>, metadata: string)

  datatype Member = Member(symbol: string, market: string, attrs: Attrs)

  datatype Row = Row(
    market: string, symbol: string, attrs: Attrs, sourceVersion: Date,
    validFrom: Date, validTo: Option<Date>)

  type Table = map<nat, Row>

  datatype Outcome = Applied(members: nat, added: nat, removed: nat) | DryRun(members: nat)

  datatype Error = UnknownUniverse | DuplicateInterval

  // ---------------------------------------------------------------- the incoming snapshot

  /** Assignment into an insertion-ordered dictionary keyed by symbol. */
  function Put(ms: seq<Member>, m: Member): seq<Member> {
    if ms == [] then [m]
    else if ms[0].symbol == m.symbol then [m] + ms[1..]
    else [ms[0]] + Put(ms[1..], m)
  }

  /** The snapshot's members keyed by symbol: nameless items are dropped, the last duplicate wins. */
  function Clean(members: seq<Member>): seq<Member> {
    if members == [] then []
    else
      var before, m := Clean(members[..|members| - 1]), members[|members| - 1];
      if m.symbol == "" then before else Put(before, m)
  }

  function Symbols(ms: seq<Member>): set<string> {
    set m | m in ms :: m.symbol
  }

  ghost predicate Distinct(ms: seq<Member>) {
    forall i, j :: 0 <= i < j < |ms| ==> ms[i].symbol != ms[j].symbol
  }

  // ---------------------------------------------------------------- the table

  predicate Open(r: Row) {
    r.validTo.None?
  }

  function OpenSymbols(rows: Table): set<string> {
    set id | id in rows && Open(rows[id]) :: rows[id].symbol
  }

  predicate InForceOn(r: Row, d: Date) {
    r.validFrom <= d && (r.validTo.Some? ==> d < r.validTo.value)
  }

  /** The as-of query: the symbols whose interval contains d. */
  function AsOf(rows: Table, d: Date): set<string> {
    set id | id in rows && InForceOn(rows[id], d) :: rows[id].symbol
  }

  /** What happens to an active row of a symbol that left: it is deleted when it opened on or after
      the snapshot date, and closed on that date otherwise. */
  function RetireRow(r: Row, keep: set<string>, asOf: Date): Option<Row> {
    if !Open(r) || r.symbol in keep then Some(r)
    else if r.validFrom >= asOf then None
    else Some(r.(validTo := Some(asOf)))
  }

  function Retired(rows: Table, keep: set<string>, asOf: Date): Table {
    map id | id in rows && RetireRow(rows[id], keep, asOf).Some? :: RetireRow(rows[id], keep, asOf).value
  }

  function NewRow(m: Member, asOf: Date): Row {
    Row(m.market, m.symbol, m.attrs, asOf, asOf, None)
  }

  predicate SameInterval(r: Row, m: Member, asOf: Date) {
    r.market == m.market && r.symbol == m.symbol && r.validFrom == asOf
  }

  function Refreshed(rows: Table, m: Member, asOf: Date): Table {
    map id | id in rows ::
      if Open(rows[id]) && rows[id].symbol == m.symbol
      then rows[id].(attrs := m.attrs, sourceVersion := asOf) else rows[id]
  }

  /** One member: refresh its active row in place, or insert one; None is a unique-key violation. */
  function Enter(rows: Table, next: nat, m: Member, active: set<string>, asOf: Date): Option<(Table, nat)> {
    if m.symbol in active then Some((Refreshed(rows, m, asOf), next))
    else if exists id :: id in rows && SameInterval(rows[id], m, asOf) then None
    else Some((rows[next := NewRow(m, asOf)], next + 1))
  }

  function EnterAll(rows: Table, next: nat, ms: seq<Member>, active: set<string>, asOf: Date): Option<(Table, nat)> {
    if ms == [] then Some((rows, next))
    else
      match EnterAll(rows, next, ms[..|ms| - 1], active, asOf)
      case None => None
      case Some((rows1, next1)) => Enter(rows1, next1, ms[|ms| - 1], active, asOf)
  }

  /** apply_snapshot on the table alone, for an already cleaned snapshot. */
  function Apply(rows: Table, next: nat, ms: seq<Member>, asOf: Date): Option<(Table, nat)> {
    EnterAll(Retired(rows, Symbols(ms), asOf), next, ms, OpenSymbols(rows), asOf)
  }

  // ---------------------------------------------------------------- the object

  /** Object invariant: ids come from the sequence, intervals are non-empty, and a symbol has at
      most one open row. */
  ghost predicate WellFormed(rows: Table, next: nat) {
    && (forall id :: id in rows ==> id < next)
    && (forall id :: id in rows && rows[id].validTo.Some? ==> rows[id].validFrom < rows[id].validTo.value)
    && (forall i, j ::
          i in rows && j in rows && Open(rows[i]) && Open(rows[j]) && rows[i].symbol == rows[j].symbol ==> i == j)
  }

  // ---------------------------------------------------------------- cleaning

  lemma {:induction false} PutMembers(ms: seq<Member>, m: Member, x: Member)
    requires Distinct(ms)
    ensures x in Put(ms, m) <==> x == m || (x in ms && x.symbol != m.symbol)
  {
    if ms != [] {
      assert ms == [ms[0]] + ms[1..];
      if ms[0].symbol != m.symbol {
        PutMembers(ms[1..], m, x);
      }
    }
  }

  lemma {:induction false} PutSymbols(ms: seq<Member>, m: Member)
    ensures Symbols(Put(ms, m)) == Symbols(ms) + {m.symbol}
  {
    if ms != [] {
      assert ms == [ms[0]] + ms[1..];
      SymbolsOfCons(ms[0], ms[1..]);
      if ms[0].symbol != m.symbol {
        PutSymbols(ms[1..], m);
        SymbolsOfCons(ms[0], Put(ms[1..], m));
      } else {
        SymbolsOfCons(m, ms[1..]);
      }
    } else {
      SymbolsOfCons(m, []);
      assert [m] + [] == [m];
    }
  }

  /** Assigning a key keeps the others in place: symbols stay distinct. */
  lemma {:induction false} PutDistinct(ms: seq<Member>, m: Member)
    requires Distinct(ms)
    ensures Distinct(Put(ms, m))
  {
    if ms != [] && ms[0].symbol != m.symbol {
      var rest := Put(ms[1..], m);
      PutDistinct(ms[1..], m);
      forall x | x in rest ensures x.symbol != ms[0].symbol {
        PutMembers(ms[1..], m, x);
      }
    }
  }

  lemma PutKeepsDistinct(ms: seq<Member>, m: Member)
    requires Distinct(ms)
    ensures Distinct(Put(ms, m)) && Symbols(Put(ms, m)) == Symbols(ms) + {m.symbol}
    ensures forall x :: x in Put(ms, m) <==> x == m || (x in ms && x.symbol != m.symbol)
  {
    PutDistinct(ms, m);
    PutSymbols(ms, m);
    forall x ensures x in Put(ms, m) <==> x == m || (x in ms && x.symbol != m.symbol) {
      PutMembers(ms, m, x);
    }
  }

  lemma SymbolsOfCons(m: Member, ms: seq<Member>)
    ensures Symbols([m] + ms) == {m.symbol} + Symbols(ms)
  {
    assert m in [m] + ms;
    forall x | x in ms ensures x in [m] + ms { }
  }

  /** x is the last item given for its symbol. */
  ghost predicate LastGiven(members: seq<Member>, x: Member) {
    exists i :: 0 <= i < |members| && members[i] == x && NotGivenFrom(members, i + 1, x.symbol)
  }

  ghost predicate NotGivenFrom(members: seq<Member>, from: nat, symbol: string) {
    forall j :: from <= j < |members| ==> members[j].symbol != symbol
  }

  lemma LastGivenStep(front: seq<Member>, m: Member, x: Member)
    ensures LastGiven(front + [m], x) <==> x == m || (LastGiven(front, x) && x.symbol != m.symbol)
  {
    var members := front + [m];
    if x == m {
      assert members[|front|] == x && NotGivenFrom(members, |front| + 1, x.symbol);
    }
    if LastGiven(front, x) && x.symbol != m.symbol {
      var i :| 0 <= i < |front| && front[i] == x && NotGivenFrom(front, i + 1, x.symbol);
      assert members[i] == x && NotGivenFrom(members, i + 1, x.symbol);
    }
    if LastGiven(members, x) && x != m {
      var i :| 0 <= i < |members| && members[i] == x && NotGivenFrom(members, i + 1, x.symbol);
      assert members[|front|] == m;
      assert forall j :: i + 1 <= j < |front| ==> members[j] == front[j];
      assert front[i] == x && NotGivenFrom(front, i + 1, x.symbol);
    }
  }

  /** A cleaned snapshot has one entry per symbol, the last one given for it. */
  lemma {:induction false} CleanIsLastPerSymbol(members: seq<Member>)
    ensures Distinct(Clean(members)) && "" !in Symbols(Clean(members))
    ensures forall x :: x in Clean(members) <==> x.symbol != "" && LastGiven(members, x)
  {
    if members != [] {
      var front, m := members[..|members| - 1], members[|members| - 1];
      assert members == front + [m];
      CleanIsLastPerSymbol(front);
      if m.symbol != "" { PutKeepsDistinct(Clean(front), m); }
      forall x ensures x in Clean(members) <==> x.symbol != "" && LastGiven(members, x) {
        LastGivenStep(front, m, x);
      }
    }
  }

  /** Where a symbol is first given, or the length when it is not. */
  function FirstGiven(members: seq<Member>, symbol: string): (i: nat)
    ensures i <= |members| && (i < |members| ==> members[i].symbol == symbol)
    ensures forall j :: 0 <= j < i ==> members[j].symbol != symbol
  {
    if members == [] then 0 else if members[0].symbol == symbol then 0 else 1 + FirstGiven(members[1..], symbol)
  }

  lemma FirstGivenIs(members: seq<Member>, symbol: string, i: nat)
    requires i <= |members| && (i < |members| ==> members[i].symbol == symbol)
    requires forall j :: 0 <= j < i ==> members[j].symbol != symbol
    ensures FirstGiven(members, symbol) == i
  {
  }

  lemma FirstGivenSnoc(front: seq<Member>, m: Member, symbol: string)
    ensures FirstGiven(front + [m], symbol)
         == if FirstGiven(front, symbol) < |front| then FirstGiven(front, symbol)
            else if m.symbol == symbol then |front| else |front| + 1
  {
    var i := FirstGiven(front, symbol);
    FirstGivenIs(front + [m], symbol, if i < |front| then i else if m.symbol == symbol then |front| else |front| + 1);
  }

  /** In the order in which their symbols were first given. */
  ghost predicate InOrderGiven(ms: seq<Member>, members: seq<Member>) {
    && (forall i :: 0 <= i < |ms| ==> FirstGiven(members, ms[i].symbol) < |members|)
    && (forall i, j :: 0 <= i < j < |ms| ==> FirstGiven(members, ms[i].symbol) < FirstGiven(members, ms[j].symbol))
  }

  /** Assigning a key leaves the keys where they are, or adds its own at the end. */
  lemma {:induction false} PutPlaces(ms: seq<Member>, m: Member)
    ensures |Put(ms, m)| == if m.symbol in Symbols(ms) then |ms| else |ms| + 1
    ensures forall i :: 0 <= i < |ms| ==> Put(ms, m)[i].symbol == ms[i].symbol
    ensures m.symbol !in Symbols(ms) ==> Put(ms, m)[|ms|] == m
  {
    if ms != [] {
      assert ms == [ms[0]] + ms[1..];
      SymbolsOfCons(ms[0], ms[1..]);
      if ms[0].symbol != m.symbol {
        PutPlaces(ms[1..], m);
      }
    } else {
      assert Symbols(ms) == {};
    }
  }

  lemma {:induction false} CleanCovers(members: seq<Member>, x: Member)
    requires x in members && x.symbol != ""
    ensures x.symbol in Symbols(Clean(members))
  {
    var front, m := members[..|members| - 1], members[|members| - 1];
    assert members == front + [m];
    if m.symbol != "" {
      PutSymbols(Clean(front), m);
    }
    if x in front {
      CleanCovers(front, x);
    }
  }

  /** Where the symbol of the i-th cleaned member was first given, when one more member has been put. */
  lemma PlaceOf(ms: seq<Member>, front: seq<Member>, m: Member, i: nat)
    requires InOrderGiven(ms, front) && m.symbol != "" && i < |Put(ms, m)|
    requires FirstGiven(front, m.symbol) < |front| ==> m.symbol in Symbols(ms)
    ensures FirstGiven(front + [m], Put(ms, m)[i].symbol)
         == if i < |ms| then FirstGiven(front, ms[i].symbol) else |front|
  {
    PutPlaces(ms, m);
    if i < |ms| {
      OldPlace(front, m, ms[i].symbol);
    } else {
      NewPlace(front, m);
    }
  }

  lemma OldPlace(front: seq<Member>, m: Member, symbol: string)
    requires FirstGiven(front, symbol) < |front|
    ensures FirstGiven(front + [m], symbol) == FirstGiven(front, symbol)
  {
    FirstGivenSnoc(front, m, symbol);
  }

  lemma NewPlace(front: seq<Member>, m: Member)
    requires FirstGiven(front, m.symbol) >= |front|
    ensures FirstGiven(front + [m], m.symbol) == |front|
  {
    FirstGivenSnoc(front, m, m.symbol);
  }

  lemma PutInOrder(ms: seq<Member>, front: seq<Member>, m: Member)
    requires InOrderGiven(ms, front) && m.symbol != ""
    requires FirstGiven(front, m.symbol) < |front| ==> m.symbol in Symbols(ms)
    ensures InOrderGiven(Put(ms, m), front + [m])
  {
    var all, after := Put(ms, m), front + [m];
    PutPlaces(ms, m);
    forall i | 0 <= i < |all| ensures FirstGiven(after, all[i].symbol) < |after| {
      PlaceOf(ms, front, m, i);
    }
    forall i, j | 0 <= i < j < |all| ensures FirstGiven(after, all[i].symbol) < FirstGiven(after, all[j].symbol) {
      PlaceOf(ms, front, m, i);
      PlaceOf(ms, front, m, j);
    }
  }

  lemma BlankKeepsOrder(ms: seq<Member>, front: seq<Member>, m: Member)
    requires InOrderGiven(ms, front)
    ensures InOrderGiven(ms, front + [m])
  {
    forall i | 0 <= i < |ms| ensures FirstGiven(front + [m], ms[i].symbol) == FirstGiven(front, ms[i].symbol) {
      FirstGivenSnoc(front, m, ms[i].symbol);
    }
  }

  /** The cleaned snapshot lists its members in the order in which their symbols were first given. */
  lemma {:induction false} CleanIsInOrder(members: seq<Member>)
    ensures InOrderGiven(Clean(members), members)
  {
    if members != [] {
      var front, m := members[..|members| - 1], members[|members| - 1];
      assert members == front + [m];
      CleanIsInOrder(front);
      if m.symbol == "" {
        BlankKeepsOrder(Clean(front), front, m);
      } else {
        if FirstGiven(front, m.symbol) < |front| {
          CleanCovers(front, front[FirstGiven(front, m.symbol)]);
        }
        PutInOrder(Clean(front), front, m);
      }
    }
  }

  // ---------------------------------------------------------------- one application

  lemma {:induction false} FailurePropagates(rows: Table, next: nat, ms: seq<Member>, n: nat, active: set<string>,
                                             asOf: Date)
    requires n <= |ms| && EnterAll(rows, next, ms[..n], active, asOf).None?
    ensures EnterAll(rows, next, ms, active, asOf).None?
    decreases |ms|
  {
    if n < |ms| {
      assert ms[..|ms| - 1][..n] == ms[..n];
      FailurePropagates(rows, next, ms[..|ms| - 1], n, active, asOf);
    } else {
      assert ms[..n] == ms;
    }
  }

  /** Row by row, the same ids carry the same market, symbol and interval. */
  ghost predicate SameSpans(rows: Table, rows': Table) {
    && rows.Keys == rows'.Keys
    && forall id :: id in rows ==> Span(rows[id]) == Span(rows'[id])
  }

  function Span(r: Row): (string, string, Date, Option<Date>) {
    (r.market, r.symbol, r.validFrom, r.validTo)
  }

  lemma SpansDecideOpen(rows: Table, rows': Table, next: nat)
    requires SameSpans(rows, rows')
    ensures OpenSymbols(rows') == OpenSymbols(rows)
    ensures WellFormed(rows, next) ==> WellFormed(rows', next)
  {
    assert forall id :: id in rows ==> Span(rows[id]) == Span(rows'[id]);
    forall id | id in rows && Open(rows[id]) ensures rows[id].symbol in OpenSymbols(rows') { assert Open(rows'[id]); }
    forall id | id in rows' && Open(rows'[id]) ensures rows'[id].symbol in OpenSymbols(rows) { assert Open(rows[id]); }
  }

  lemma SpansDecideAsOf(rows: Table, rows': Table, d: Date)
    requires SameSpans(rows, rows')
    ensures AsOf(rows', d) == AsOf(rows, d)
  {
    forall id | id in rows
      ensures Span(rows[id]) == Span(rows'[id]) && InForceOn(rows[id], d) == InForceOn(rows'[id], d) { }
    forall id | id in rows && InForceOn(rows[id], d)
      ensures rows[id].symbol in AsOf(rows', d) { assert InForceOn(rows'[id], d); }
    forall id | id in rows' && InForceOn(rows'[id], d)
      ensures rows'[id].symbol in AsOf(rows, d) { assert InForceOn(rows[id], d); }
  }

  lemma InsertedOpen(rows: Table, next: nat, r: Row)
    requires WellFormed(rows, next) && Open(r)
    ensures OpenSymbols(rows[next := r]) == OpenSymbols(rows) + {r.symbol}
    ensures r.symbol !in OpenSymbols(rows) ==> WellFormed(rows[next := r], next + 1)
  {
    var rows' := rows[next := r];
    assert Open(rows'[next]);
    forall id | id in rows && Open(rows[id]) ensures rows[id].symbol in OpenSymbols(rows') { assert Open(rows'[id]); }
    assert forall id :: id in rows && Open(rows[id]) ==> rows[id].symbol in OpenSymbols(rows);
  }

  lemma InsertedAsOf(rows: Table, next: nat, r: Row, d: Date)
    requires WellFormed(rows, next)
    ensures AsOf(rows[next := r], d) == AsOf(rows, d) + if InForceOn(r, d) then {r.symbol} else {}
  {
    var rows' := rows[next := r];
    if InForceOn(r, d) { assert InForceOn(rows'[next], d); }
    forall id | id in rows && InForceOn(rows[id], d)
      ensures rows[id].symbol in AsOf(rows', d) { assert InForceOn(rows'[id], d); }
  }

  lemma RetireEffect(rows: Table, next: nat, keep: set<string>, asOf: Date)
    requires WellFormed(rows, next)
    ensures WellFormed(Retired(rows, keep, asOf), next)
    ensures OpenSymbols(Retired(rows, keep, asOf)) == OpenSymbols(rows) * keep
  {
    var rows' := Retired(rows, keep, asOf);
    forall id | id in rows && Open(rows[id]) && rows[id].symbol in keep ensures rows[id].symbol in OpenSymbols(rows') {
      assert Open(rows'[id]);
    }
  }

  lemma RetireKeepsThePast(rows: Table, keep: set<string>, asOf: Date, d: Date)
    requires d < asOf
    ensures AsOf(Retired(rows, keep, asOf), d) == AsOf(rows, d)
  {
    var rows' := Retired(rows, keep, asOf);
    forall id | id in rows && InForceOn(rows[id], d) ensures rows[id].symbol in AsOf(rows', d) {
      assert InForceOn(rows'[id], d);
    }
  }

  lemma EnterEffect(rows: Table, next: nat, m: Member, active: set<string>, asOf: Date, d: Date)
    requires WellFormed(rows, next) && Enter(rows, next, m, active, asOf).Some?
    requires m.symbol in active <==> m.symbol in OpenSymbols(rows)
    ensures var (rows', next') := Enter(rows, next, m, active, asOf).value;
      && WellFormed(rows', next')
      && OpenSymbols(rows') == OpenSymbols(rows) + {m.symbol}
      && AsOf(rows', d) == AsOf(rows, d) + if m.symbol !in active && asOf <= d then {m.symbol} else {}
  {
    if m.symbol in active {
      assert SameSpans(rows, Refreshed(rows, m, asOf));
      SpansDecideOpen(rows, Refreshed(rows, m, asOf), next);
      SpansDecideAsOf(rows, Refreshed(rows, m, asOf), d);
    } else {
      InsertedOpen(rows, next, NewRow(m, asOf));
      InsertedAsOf(rows, next, NewRow(m, asOf), d);
    }
  }

  lemma SymbolsOfSnoc(front: seq<Member>, m: Member)
    ensures Symbols(front + [m]) == Symbols(front) + {m.symbol}
  {
    assert m in front + [m];
    forall x | x in front ensures x in front + [m] { }
  }

  lemma LastIsNew(front: seq<Member>, m: Member)
    requires Distinct(front + [m])
    ensures Distinct(front) && m.symbol !in Symbols(front)
  {
    forall x | x in front ensures x.symbol != m.symbol {
      var i :| 0 <= i < |front| && front[i] == x;
      assert (front + [m])[i] == x && (front + [m])[|front|] == m;
    }
    forall i, j | 0 <= i < j < |front| ensures front[i].symbol != front[j].symbol {
      assert (front + [m])[i] == front[i] && (front + [m])[j] == front[j];
    }
  }

  lemma {:induction false} EnterAllEffect(base: Table, next: nat, ms: seq<Member>, active: set<string>, asOf: Date,
                                          d: Date)
    requires WellFormed(base, next) && Distinct(ms) && EnterAll(base, next, ms, active, asOf).Some?
    requires OpenSymbols(base) <= active && Symbols(ms) * active <= OpenSymbols(base)
    ensures var (rows', next') := EnterAll(base, next, ms, active, asOf).value;
      && WellFormed(rows', next')
      && OpenSymbols(rows') == OpenSymbols(base) + Symbols(ms)
      && AsOf(rows', d) == AsOf(base, d) + if asOf <= d then Symbols(ms) - active else {}
  {
    if ms == [] {
      assert Symbols(ms) == {};
    } else {
      var front, m := ms[..|ms| - 1], ms[|ms| - 1];
      assert ms == front + [m];
      SymbolsOfSnoc(front, m);
      LastIsNew(front, m);
      EnterAllEffect(base, next, front, active, asOf, d);
      var (rows1, next1) := EnterAll(base, next, front, active, asOf).value;
      EnterEffect(rows1, next1, m, active, asOf, d);
      EnterAllSets(OpenSymbols(base), Symbols(front), active, m.symbol, AsOf(base, d));
    }
  }

  lemma EnterAllSets(before: set<string>, entered: set<string>, active: set<string>, symbol: string, seen: set<string>)
    ensures before + entered + {symbol} == before + (entered + {symbol})
    ensures seen + (entered - active) + (if symbol !in active then {symbol} else {})
        == seen + (entered + {symbol} - active)
    ensures seen + {} + {} == seen + {}
  {
  }

  lemma ApplyKeepsWellFormed(rows: Table, next: nat, members: seq<Member>, asOf: Date)
    requires WellFormed(rows, next) && Apply(rows, next, Clean(members), asOf).Some?
    ensures var (rows', next') := Apply(rows, next, Clean(members), asOf).value;
      WellFormed(rows', next') && OpenSymbols(rows') == Symbols(Clean(members))
  {
    var ms := Clean(members);
    CleanIsLastPerSymbol(members);
    RetireEffect(rows, next, Symbols(ms), asOf);
    EnterAllEffect(Retired(rows, Symbols(ms), asOf), next, ms, OpenSymbols(rows), asOf, asOf);
  }

  // ---------------------------------------------------------------- the symbol master

  /** The names of Hong Kong symbols in the symbol master, after adding those of a snapshot to it. */
  function Registered(names: map<string, string>, ms: seq<Member>): map<string, string> {
    if ms == [] then names
    else
      var before, m := Registered(names, ms[..|ms| - 1]), ms[|ms| - 1];
      if m.market == "HKStock" then before[m.symbol := m.attrs.name] else before
  }

  predicate IsHongKong(ms: seq<Member>, symbol: string) {
    exists i :: 0 <= i < |ms| && ms[i].market == "HKStock" && ms[i].symbol == symbol
  }

  /** Every Hong Kong member of a cleaned snapshot is registered under its name, and no other name changes. */
  lemma {:induction false} RegisteredIs(names: map<string, string>, ms: seq<Member>, m: Member)
    requires Distinct(ms)
    ensures var after := Registered(names, ms);
      && (m in ms && m.market == "HKStock" ==> m.symbol in after && after[m.symbol] == m.attrs.name)
      && (!IsHongKong(ms, m.symbol) ==>
            (m.symbol in after <==> m.symbol in names)
            && (m.symbol in names ==> after[m.symbol] == names[m.symbol]))
  {
    if ms != [] {
      var front, last := ms[..|ms| - 1], ms[|ms| - 1];
      RegisteredIs(names, front, m);
      if m in front {
        var i :| 0 <= i < |front| && front[i] == m;
        assert ms[i] == m && m.symbol != last.symbol;
      }
      if IsHongKong(front, m.symbol) {
        var i :| 0 <= i < |front| && front[i].market == "HKStock" && front[i].symbol == m.symbol;
        assert ms[i] == front[i];
      }
      assert m in ms ==> m in front || m == last;
    }
  }

  class Universe {
    const known: bool
    var rows: Table
    var nextId: nat
    var snapshotAsOf: Option<Date>
    var hongKong: map<string, string>

    ghost predicate Valid()
      reads this
    {
      WellFormed(rows, nextId)
    }

    constructor (known: bool, hongKong: map<string, string>)
      ensures Valid() && this.known == known && rows == map[] && nextId == 0 && snapshotAsOf == None
      ensures this.hongKong == hongKong
    {
      this.known, this.hongKong := known, hongKong;
      rows, nextId, snapshotAsOf := map[], 0, None;
    }

    /** The symbol master is written before the transaction, and stays written when that fails. */
    method ApplySnapshot(members: seq<Member>, asOf: Date, dryRun: bool) returns (res: Result<Outcome, Error>)
      requires Valid()
      modifies this
      ensures Valid()
      ensures hongKong == if dryRun then old(hongKong) else Registered(old(hongKong), Clean(members))
      ensures res.Err? || dryRun ==>
          rows == old(rows) && nextId == old(nextId) && snapshotAsOf == old(snapshotAsOf)
      ensures var ms := Clean(members);
        if dryRun then res == Ok(DryRun(|ms|))
        else if !known then res == Err(UnknownUniverse)
        else match Apply(old(rows), old(nextId), ms, asOf)
             case None => res == Err(DuplicateInterval)
             case Some((t, n)) =>
               && rows == t && nextId == n && snapshotAsOf == Some(asOf)
               && res == Ok(Applied(|ms|,
                                    |Symbols(ms) - OpenSymbols(old(rows))|,
                                    |OpenSymbols(old(rows)) - Symbols(ms)|))
    {
      var clean := CleanMembers(members);
      if dryRun { return Ok(DryRun(|clean|)); }
      hongKong := RegisterHongKong(hongKong, clean);
      if !known { return Err(UnknownUniverse); }

      var active := OpenSymbols(rows);
      var work := RetireMembers(rows, nextId, Symbols(clean), asOf);
      var entered := EnterMembers(work, nextId, clean, active, asOf);
      if entered.None? { return Err(DuplicateInterval); }
      ApplyKeepsWellFormed(rows, nextId, members, asOf);
      res := Ok(Applied(|clean|, |Symbols(clean) - active|, |active - Symbols(clean)|));
      rows, nextId, snapshotAsOf := entered.value.0, entered.value.1, Some(asOf);
    }
  }

  method RegisterHongKong(names: map<string, string>, clean: seq<Member>) returns (names': map<string, string>)
    ensures names' == Registered(names, clean)
  {
    names' := names;
    for i := 0 to |clean|
      invariant names' == Registered(names, clean[..i])
    {
      assert clean[..i + 1][..i] == clean[..i];
      if clean[i].market == "HKStock" {
        names' := names'[clean[i].symbol := clean[i].attrs.name];
      }
    }
    assert clean[..|clean|] == clean;
  }

  method CleanMembers(members: seq<Member>) returns (clean: seq<Member>)
    ensures clean == Clean(members)
  {
    clean := [];
    for i := 0 to |members|
      invariant clean == Clean(members[..i])
    {
      assert members[..i + 1][..i] == members[..i];
      if members[i].symbol != "" {
        clean := Put(clean, members[i]);
      }
    }
    assert members[..|members|] == members;
  }

  /** The DELETE of rows opened on the snapshot day or later, then the UPDATE that closes the others. */
  method RetireMembers(rows: Table, ghost next: nat, keep: set<string>, asOf: Date) returns (work: Table)
    requires WellFormed(rows, next)
    ensures work == Retired(rows, keep, asOf)
  {
    var removed := OpenSymbols(rows) - keep;
    var sameDay := set id | id in rows && Open(rows[id]) && rows[id].symbol in removed && rows[id].validFrom >= asOf
      :: rows[id].symbol;
    var historical := removed - sameDay;
    forall id | id in rows && Open(rows[id])
      ensures rows[id].symbol in sameDay <==> rows[id].symbol !in keep && rows[id].validFrom >= asOf
      ensures rows[id].symbol in historical <==> rows[id].symbol !in keep && rows[id].validFrom < asOf
    {
      assert rows[id].symbol in OpenSymbols(rows);
    }
    work := Statements(rows, sameDay, historical, asOf);
  }

  function Statements(rows: Table, sameDay: set<string>, historical: set<string>, asOf: Date): Table {
    var kept := map id | id in rows && !(Open(rows[id]) && rows[id].symbol in sameDay) :: rows[id];
    map id | id in kept ::
      if Open(kept[id]) && kept[id].symbol in historical then kept[id].(validTo := Some(asOf)) else kept[id]
  }

  method EnterMembers(start: Table, nextId: nat, clean: seq<Member>, active: set<string>, asOf: Date)
    returns (res: Option<(Table, nat)>)
    ensures res == EnterAll(start, nextId, clean, active, asOf)
  {
    var work, next := start, nextId;
    for i := 0 to |clean|
      invariant EnterAll(start, nextId, clean[..i], active, asOf) == Some((work, next))
    {
      var m := clean[i];
      assert clean[..i + 1][..i] == clean[..i];
      if m.symbol in active {
        work := Refreshed(work, m, asOf);
      } else {
        if exists id :: id in work && SameInterval(work[id], m, asOf) {
          FailurePropagates(start, nextId, clean, i + 1, active, asOf);
          return None;
        }
        work, next := work[next := NewRow(m, asOf)], next + 1;
      }
    }
    assert clean[..|clean|] == clean;
    res := Some((work, next));
  }
}
