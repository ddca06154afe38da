/**
 The re-encryption command of app/commands/migrate_credentials.py: a keyset scan in
 batches over two tables, one transaction per converted row, killed at any row boundary.
 */
module CredentialMigration {
  import opened Common
  import opened SortedKeys
  import opened CredentialEnvelope

  type RowId = (string, int)

  type Blobs = map<RowId, string>

  datatype LogEntry = LogEntry(
    row: RowId, purpose: string, kind: Kind, sourceKeyId: string, targetKeyId: string,
    sourceSha: string, targetSha: string)

  datatype Totals = Totals(legacy: nat, envelope: nat, current: nat, empty: nat, error: nat)

  const NO_ROWS := Totals(0, 0, 0, 0, 0)

  datatype Target = Target(table: string, purpose: string)

  const TARGETS: seq<Target> := [Target("qd_exchange_credentials", BROKER), Target("qd_user_mfa", MFA)]

  datatype Converted = Converted(blob: Option<string>, kind: Kind, sourceKeyId: string)

  /** How one run is configured. The nonce of each encryption is arbitrary. */
  datatype Setup = Setup(cipher: Cipher, ring: Keyring, nonces: RowId -> nat, dryRun: bool)

  datatype St = St(blobs: Blobs, log: seq<LogEntry>, totals: Totals)

  datatype Visit = Visit(target: Target, key: int)

  // ---------------------------------------------------------------- one row

  /** _convert_row: None is an exception; a result without a blob means nothing to write. */
  function ConvertRow(cfg: Setup, blob: string, purpose: string, nonce: nat): Option<Converted> {
    var (kind, storedPurpose, keyId) := Classify(blob);
    if kind == Empty then Some(Converted(None, Empty, ""))
    else if cfg.ring.active.None? then None
    else if kind == EnvelopeBlob && storedPurpose == purpose
        && keyId == cfg.cipher.fingerprint(cfg.ring.active.value) then
      Some(Converted(None, Current, keyId))
    else
      var text :=
        if kind == LegacyBlob then DecryptLegacy(cfg.cipher, cfg.ring, blob)
        else Decrypt(cfg.cipher, cfg.ring, blob, purpose);
      var source := if kind == LegacyBlob then "legacy" else keyId;
      if text.None? then None
      else if cfg.dryRun then Some(Converted(Some("dry-run:" + purpose), kind, source))
      else
        match Encrypt(cfg.cipher, cfg.ring, text.value, purpose, nonce)
        case None => None
        case Some(b) => Some(Converted(Some(b), kind, source))
  }

  function Count(t: Totals, kind: Kind): Totals {
    match kind
    case LegacyBlob => t.(legacy := t.legacy + 1)
    case EnvelopeBlob => t.(envelope := t.envelope + 1)
    case Current => t.(current := t.current + 1)
    case Empty => t.(empty := t.empty + 1)
  }

  function Entry(cfg: Setup, id: RowId, purpose: string, old_: string, r: Converted): LogEntry
    requires r.blob.Some?
  {
    LogEntry(id, purpose, r.kind, r.sourceKeyId, TargetKeyId(r.blob.value),
             cfg.cipher.sha256(old_), cfg.cipher.sha256(r.blob.value))
  }

  /** The loop body of run for one fetched row, including its transaction. */
  function RowStep(cfg: Setup, st: St, v: Visit, blob: string): St {
    var id := (v.target.table, v.key);
    match ConvertRow(cfg, blob, v.target.purpose, cfg.nonces(id))
    case None => st.(totals := st.totals.(error := st.totals.error + 1))
    case Some(r) =>
      var totals := Count(st.totals, r.kind);
      if r.blob.None? || cfg.dryRun then st.(totals := totals)
      else St(st.blobs[id := r.blob.value], st.log + [Entry(cfg, id, v.target.purpose, blob, r)], totals)
  }

  /** The rows in the order given, each read as it is when its turn comes. */
  function Sweep(cfg: Setup, st: St, visits: seq<Visit>): St {
    if visits == [] then st
    else
      var before, v := Sweep(cfg, st, visits[..|visits| - 1]), visits[|visits| - 1];
      var id := (v.target.table, v.key);
      if id in before.blobs then RowStep(cfg, before, v, before.blobs[id]) else before
  }

  // ---------------------------------------------------------------- the scan order

  /** WHERE pk > after_key, for one table. */
  function KeysAfter(ids: set<RowId>, table: string, after: int): set<int> {
    set id | id in ids && id.0 == table && id.1 > after :: id.1
  }

  function VisitsOf(t: Target, keys: seq<int>): seq<Visit> {
    seq(|keys|, i requires 0 <= i < |keys| => Visit(t, keys[i]))
  }

  /** Every row a complete run visits: the positive keys of each target in ascending order. */
  function AllVisits(ids: set<RowId>, targets: seq<Target>): seq<Visit> {
    if targets == [] then []
    else AllVisits(ids, targets[..|targets| - 1]) + TargetVisits(ids, targets[|targets| - 1])
  }

  function TargetKeys(ids: set<RowId>, t: Target): seq<int> {
    Ascending(KeysAfter(ids, t.table, 0))
  }

  function TargetVisits(ids: set<RowId>, t: Target): seq<Visit> {
    VisitsOf(t, TargetKeys(ids, t))
  }

  lemma SweepKeepsRows(cfg: Setup, st: St, visits: seq<Visit>)
    ensures Sweep(cfg, st, visits).blobs.Keys == st.blobs.Keys
  {
  }

  lemma {:induction false} SweepAppend(cfg: Setup, st: St, a: seq<Visit>, b: seq<Visit>)
    ensures Sweep(cfg, st, a + b) == Sweep(cfg, Sweep(cfg, st, a), b)
  {
    if b == [] {
      assert a + b == a;
    } else {
      assert (a + b)[..|a + b| - 1] == a + b[..|b| - 1];
      SweepAppend(cfg, st, a, b[..|b| - 1]);
    }
  }

  lemma KeysResume(ids: set<RowId>, table: string, after: int, last: int)
    requires after <= last
    ensures KeysAfter(ids, table, last) == set x | x in KeysAfter(ids, table, after) && x > last
  {
    forall x | x in KeysAfter(ids, table, after) && x > last ensures x in KeysAfter(ids, table, last) {
      assert (table, x) in ids;
    }
    forall x | x in KeysAfter(ids, table, last) ensures x in KeysAfter(ids, table, after) {
      assert (table, x) in ids;
    }
  }

  /** After n rows of the scan that follows `after`, the rest is the scan that follows the n-th of them. */
  lemma NextPage(ids: set<RowId>, table: string, after: int, n: nat)
    requires 1 <= n <= |Ascending(KeysAfter(ids, table, after))|
    ensures var q := Ascending(KeysAfter(ids, table, after));
      q[n - 1] > after && q[n..] == Ascending(KeysAfter(ids, table, q[n - 1]))
  {
    var q := Ascending(KeysAfter(ids, table, after));
    AscendingIsSorted(KeysAfter(ids, table, after));
    assert q[n - 1] in KeysAfter(ids, table, after);
    ScanResumes(KeysAfter(ids, table, after), n);
    KeysResume(ids, table, after, q[n - 1]);
  }

  lemma PageOfVisits(t: Target, keys: seq<int>, used: nat, batch: seq<int>, n: nat)
    requires used + |batch| <= |keys| && batch == keys[used..][..|batch|] && n <= |batch|
    ensures VisitsOf(t, keys)[..used] + VisitsOf(t, batch)[..n] == VisitsOf(t, keys)[..used + n]
  {
  }

  /** Sweeping a page of the remaining keys after a sweep of the earlier ones is one longer sweep. */
  lemma PageSwept(cfg: Setup, start: St, t: Target, keys: seq<int>, used: nat, batch: seq<int>, n: nat, end: St)
    requires used + |batch| <= |keys| && batch == keys[used..][..|batch|] && n <= |batch|
    requires end == Sweep(cfg, Sweep(cfg, start, VisitsOf(t, keys)[..used]), VisitsOf(t, batch)[..n])
    ensures end == Sweep(cfg, start, VisitsOf(t, keys)[..used + n])
  {
    PageOfVisits(t, keys, used, batch, n);
    SweepAppend(cfg, start, VisitsOf(t, keys)[..used], VisitsOf(t, batch)[..n]);
  }

  /** What is left after a page is the scan behind the page. */
  lemma RestAfterPage(ids: set<RowId>, table: string, keys: seq<int>, used: nat, after: int, fetched: nat)
    requires used + fetched <= |keys| && fetched > 0 && keys[used..] == Ascending(KeysAfter(ids, table, after))
    ensures keys[used + fetched..] == Ascending(KeysAfter(ids, table, Max(after, keys[used..][fetched - 1])))
  {
    NextPage(ids, table, after, fetched);
    assert keys[used..][fetched..] == keys[used + fetched..];
  }

  function SweptKeys(cfg: Setup, start: St, t: Target, keys: seq<int>, used: nat): St
    requires used <= |keys|
  {
    Sweep(cfg, start, VisitsOf(t, keys)[..used])
  }

  /** The scan of one table has handled the first `used` keys. */
  predicate Scanned(cfg: Setup, start: St, t: Target, keys: seq<int>, now: St, used: nat) {
    used <= |keys| && now == SweptKeys(cfg, start, t, keys, used)
  }

  /** What it has not handled is the scan behind `after`. */
  ghost predicate Remaining(start: St, t: Target, keys: seq<int>, used: nat, after: int) {
    used <= |keys| && keys[used..] == Ascending(KeysAfter(start.blobs.Keys, t.table, after))
  }

  lemma ScanStarts(cfg: Setup, start: St, t: Target)
    ensures Scanned(cfg, start, t, TargetKeys(start.blobs.Keys, t), start, 0)
    ensures Remaining(start, t, TargetKeys(start.blobs.Keys, t), 0, 0)
  {
  }

  function KeysIn(rows: seq<(int, string)>): seq<int> {
    seq(|rows|, i requires 0 <= i < |rows| => rows[i].0)
  }

  /** The first n keys of the scan behind `after`, with their blobs. */
  predicate IsPage(blobs: Blobs, table: string, after: int, n: nat, rows: seq<(int, string)>) {
    var keys := Ascending(KeysAfter(blobs.Keys, table, after));
    |rows| == Min(n, |keys|)
    && forall i :: 0 <= i < |rows| ==>
         rows[i].0 == keys[i] && (table, keys[i]) in blobs && rows[i].1 == blobs[(table, keys[i])]
  }

  /** The rows are as stored, in ascending order of their keys. */
  predicate Stored(blobs: Blobs, table: string, rows: seq<(int, string)>) {
    (forall i :: 0 <= i < |rows| ==> (table, rows[i].0) in blobs && blobs[(table, rows[i].0)] == rows[i].1)
    && forall i, j :: 0 <= i < j < |rows| ==> rows[i].0 < rows[j].0
  }

  lemma PageIsStored(blobs: Blobs, table: string, after: int, n: nat, rows: seq<(int, string)>)
    requires IsPage(blobs, table, after, n, rows)
    ensures Stored(blobs, table, rows)
    ensures KeysIn(rows) == Ascending(KeysAfter(blobs.Keys, table, after))[..|rows|]
  {
    AscendingIsSorted(KeysAfter(blobs.Keys, table, after));
  }

  /** Where the scan goes on after a page. */
  function Behind(after: int, rows: seq<(int, string)>): int {
    if rows == [] then after else Max(after, rows[|rows| - 1].0)
  }

  lemma NextScanned(cfg: Setup, start: St, t: Target, keys: seq<int>, now: St, used: nat, after: int,
                    batchSize: nat, rows: seq<(int, string)>, n: nat, now': St)
    requires Scanned(cfg, start, t, keys, now, used) && Remaining(start, t, keys, used, after)
    requires IsPage(now.blobs, t.table, after, batchSize, rows) && n <= |rows|
    requires now' == Sweep(cfg, now, VisitsOf(t, KeysIn(rows))[..n])
    ensures |rows| == Min(batchSize, |keys| - used)
    ensures Scanned(cfg, start, t, keys, now', used + n)
    ensures n == |rows| > 0 ==> Remaining(start, t, keys, used + n, Behind(after, rows))
  {
    SweepKeepsRows(cfg, start, VisitsOf(t, keys)[..used]);
    PageIsStored(now.blobs, t.table, after, batchSize, rows);
    PageSwept(cfg, start, t, keys, used, KeysIn(rows), n, now');
    if rows != [] { RestAfterPage(start.blobs.Keys, t.table, keys, used, after, |rows|); }
  }

  lemma TargetSwept(cfg: Setup, start: St, before: seq<Visit>, was: nat, here: seq<Visit>, n: nat, end: St)
    requires was <= |before| && n <= |here| && (n > 0 ==> was == |before|)
    requires end == Sweep(cfg, Sweep(cfg, start, before[..was]), here[..n])
    ensures end == Sweep(cfg, start, (before + here)[..was + n])
  {
    SweepAppend(cfg, start, before[..was], here[..n]);
    assert before[..was] + here[..n] == (before + here)[..was + n];
  }

  lemma NextTarget(ids: set<RowId>, targets: seq<Target>, i: nat)
    requires i < |targets|
    ensures AllVisits(ids, targets[..i + 1]) == AllVisits(ids, targets[..i]) + TargetVisits(ids, targets[i])
  {
    assert targets[..i + 1][..i] == targets[..i];
  }

  /** A run over `targets` that may handle `budget` rows has handled `used` of them. */
  predicate RanOver(cfg: Setup, start: St, targets: seq<Target>, budget: nat, used: nat, now: St) {
    var visits := AllVisits(start.blobs.Keys, targets);
    used == Min(budget, |visits|) && now == Sweep(cfg, start, visits[..used])
  }

  lemma RanOverNext(cfg: Setup, start: St, targets: seq<Target>, i: nat, budget: nat, used: nat, mid: St, n: nat,
                    end: St)
    requires i < |targets| && RanOver(cfg, start, targets[..i], budget, used, mid)
    requires var keys := TargetKeys(mid.blobs.Keys, targets[i]);
      n == Min(budget - used, |keys|) && Scanned(cfg, mid, targets[i], keys, end, n)
    ensures RanOver(cfg, start, targets[..i + 1], budget, used + n, end)
  {
    SweepKeepsRows(cfg, start, AllVisits(start.blobs.Keys, targets[..i])[..used]);
    NextTarget(start.blobs.Keys, targets, i);
    TargetSwept(cfg, start, AllVisits(start.blobs.Keys, targets[..i]), used,
                TargetVisits(start.blobs.Keys, targets[i]), n, end);
  }

  // ---------------------------------------------------------------- the command

  class Migration {
    const cipher: Cipher
    var blobs: Blobs
    var log: seq<LogEntry>

    constructor (cipher: Cipher, blobs: Blobs)
      ensures this.cipher == cipher && this.blobs == blobs && log == []
    {
      this.cipher, this.blobs, this.log := cipher, blobs, [];
    }

    /** SELECT ... WHERE pk > after ORDER BY pk LIMIT n. */
    method FetchBatch(table: string, after: int, n: nat) returns (rows: seq<(int, string)>)
      ensures IsPage(blobs, table, after, n, rows)
    {
      var keys := Ascending(KeysAfter(blobs.Keys, table, after));
      AscendingIsSorted(KeysAfter(blobs.Keys, table, after));
      rows := [];
      while |rows| < n && |rows| < |keys|
        invariant |rows| <= Min(n, |keys|)
        invariant forall i :: 0 <= i < |rows| ==>
          rows[i].0 == keys[i] && (table, keys[i]) in blobs && rows[i].1 == blobs[(table, keys[i])]
      {
        assert keys[|rows|] in KeysAfter(blobs.Keys, table, after);
        rows := rows + [(keys[|rows|], blobs[(table, keys[|rows|])])];
      }
    }

    /** The transaction of one row, or nothing. */
    method ProcessRow(cfg: Setup, totals: Totals, v: Visit, blob: string) returns (totals': Totals)
      modifies this
      ensures St(blobs, log, totals') == RowStep(cfg, St(old(blobs), old(log), totals), v, blob)
    {
      var id := (v.target.table, v.key);
      var r := ConvertRow(cfg, blob, v.target.purpose, cfg.nonces(id));
      if r.None? { return totals.(error := totals.error + 1); }
      totals' := Count(totals, r.value.kind);
      if r.value.blob.Some? && !cfg.dryRun {
        blobs := blobs[id := r.value.blob.value];
        log := log + [Entry(cfg, id, v.target.purpose, blob, r.value)];
      }
    }

    /** The rows of one fetched batch; stops before a row when the budget is used up. */
    method ProcessBatch(cfg: Setup, totals: Totals, t: Target, rows: seq<(int, string)>, budget: nat)
      returns (totals': Totals, used: nat)
      requires Stored(blobs, t.table, rows)
      modifies this
      ensures used == Min(budget, |rows|)
      ensures St(blobs, log, totals')
           == Sweep(cfg, St(old(blobs), old(log), totals), VisitsOf(t, KeysIn(rows))[..used])
    {
      ghost var start := St(blobs, log, totals);
      ghost var visits := VisitsOf(t, KeysIn(rows));
      totals', used := totals, 0;
      while used < |rows| && used < budget
        invariant used <= Min(budget, |rows|)
        invariant St(blobs, log, totals') == Sweep(cfg, start, visits[..used])
        invariant forall i :: used <= i < |rows| ==>
          (t.table, rows[i].0) in blobs && blobs[(t.table, rows[i].0)] == rows[i].1
      {
        var v := Visit(t, rows[used].0);
        assert visits[..used + 1][..used] == visits[..used] && visits[used] == v;
        totals' := ProcessRow(cfg, totals', v, rows[used].1);
        used := used + 1;
      }
    }

    /** One turn of the scan loop: fetch a batch after `after` and process it. */
    method ScanPage(cfg: Setup, totals: Totals, t: Target, after: int, batchSize: nat, budget: nat)
      returns (totals': Totals, after': int, used: nat, rows: seq<(int, string)>)
      modifies this
      ensures IsPage(old(blobs), t.table, after, batchSize, rows)
      ensures used == Min(budget, |rows|) && after' == Behind(after, rows)
      ensures St(blobs, log, totals')
           == Sweep(cfg, St(old(blobs), old(log), totals), VisitsOf(t, KeysIn(rows))[..used])
    {
      rows := FetchBatch(t.table, after, batchSize);
      PageIsStored(blobs, t.table, after, batchSize, rows);
      totals', used := ProcessBatch(cfg, totals, t, rows, budget);
      after' := Behind(after, rows);
    }

    /** One target: after_key, batches, until a batch comes back empty or the process dies. */
    method ScanTarget(cfg: Setup, totals: Totals, t: Target, batchSize: nat, budget: nat)
      returns (totals': Totals, used: nat)
      requires batchSize >= 1
      modifies this
      ensures var keys := TargetKeys(old(blobs).Keys, t);
        used == Min(budget, |keys|)
        && Scanned(cfg, St(old(blobs), old(log), totals), t, keys, St(blobs, log, totals'), used)
    {
      ghost var start, now := St(blobs, log, totals), St(blobs, log, totals);
      ghost var keys := TargetKeys(blobs.Keys, t);
      ScanStarts(cfg, start, t);
      var after, more := 0, true;
      totals', used := totals, 0;
      while more
        invariant now == St(blobs, log, totals')
        invariant used <= budget && Scanned(cfg, start, t, keys, now, used)
        invariant more ==> Remaining(start, t, keys, used, after)
        invariant !more ==> used == Min(budget, |keys|)
        decreases |keys| - used, more
      {
        ghost var before, from := now, after;
        var n, rows;
        totals', after, n, rows := ScanPage(cfg, totals', t, after, batchSize, budget - used);
        now := St(blobs, log, totals');
        NextScanned(cfg, start, t, keys, before, used, from, batchSize, rows, n, now);
        used := used + n;
        more := n == |rows| > 0;
      }
    }

    /** run over a list of targets, killed after `crashAfter` rows if it has not finished by then. */
    method Run(cfg: Setup, targets: seq<Target>, batchSize: nat, crashAfter: nat) returns (totals: Totals, used: nat)
      requires batchSize >= 1
      modifies this
      ensures var visits := AllVisits(old(blobs).Keys, targets);
        && used == Min(crashAfter, |visits|)
        && St(blobs, log, totals) == Sweep(cfg, St(old(blobs), old(log), NO_ROWS), visits[..used])
    {
      ghost var start := St(blobs, log, NO_ROWS);
      totals, used := NO_ROWS, 0;
      for i := 0 to |targets|
        invariant RanOver(cfg, start, targets[..i], crashAfter, used, St(blobs, log, totals))
      {
        ghost var mid := St(blobs, log, totals);
        var n;
        totals, n := ScanTarget(cfg, totals, targets[i], batchSize, crashAfter - used);
        RanOverNext(cfg, start, targets, i, crashAfter, used, mid, n, St(blobs, log, totals));
        used := used + n;
      }
      assert targets[..|targets|] == targets;
    }
  }
}
