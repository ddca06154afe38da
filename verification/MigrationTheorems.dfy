/**
 What any sequence of interrupted, dry or complete migration runs leaves behind.
 */
module MigrationTheorems {
  import opened Common
  import opened SortedKeys
  import opened CredentialEnvelope
  import opened CredentialMigration

  function IdOf(v: Visit): RowId {
    (v.target.table, v.key)
  }

  // ---------------------------------------------------------------- the scan

  lemma TargetVisitsMembers(ids: set<RowId>, t: Target, v: Visit)
    ensures v in TargetVisits(ids, t) <==> v.target == t && IdOf(v) in ids && v.key > 0
    ensures forall i, j :: 0 <= i < j < |TargetVisits(ids, t)| ==>
      TargetVisits(ids, t)[i].key < TargetVisits(ids, t)[j].key
  {
    var keys := KeysAfter(ids, t.table, 0);
    AscendingIsSorted(keys);
    if v.target == t && IdOf(v) in ids && v.key > 0 {
      assert v.key in keys;
      var i :| 0 <= i < |Ascending(keys)| && Ascending(keys)[i] == v.key;
      assert TargetVisits(ids, t)[i] == v;
    }
    if v in TargetVisits(ids, t) {
      var i :| 0 <= i < |Ascending(keys)| && TargetVisits(ids, t)[i] == v;
      assert Ascending(keys)[i] in keys;
    }
  }

  ghost predicate OnceEach(visits: seq<Visit>) {
    forall i, j :: 0 <= i < j < |visits| ==> IdOf(visits[i]) != IdOf(visits[j])
  }

  /** A complete run visits every row with a positive key of the two tables, each exactly once, under its
      table's purpose, and no other row. */
  lemma EveryRowVisitedOnce(ids: set<RowId>, v: Visit)
    ensures v in AllVisits(ids, TARGETS) <==> v.target in TARGETS && IdOf(v) in ids && v.key > 0
    ensures OnceEach(AllVisits(ids, TARGETS))
  {
    var a, b := TargetVisits(ids, TARGETS[0]), TargetVisits(ids, TARGETS[1]);
    assert |TARGETS| == 2 && TARGETS[..1] == [TARGETS[0]] && [TARGETS[0]][..0] == [];
    assert AllVisits(ids, TARGETS[..1]) == a;
    assert AllVisits(ids, TARGETS) == a + b;
    TargetVisitsMembers(ids, TARGETS[0], v);
    TargetVisitsMembers(ids, TARGETS[1], v);
    forall i | 0 <= i < |a| ensures a[i].target == TARGETS[0] { }
    forall i | 0 <= i < |b| ensures b[i].target == TARGETS[1] { }
  }

  // ---------------------------------------------------------------- one row

  /** What a row holds after its turn. */
  function NewBlob(cfg: Setup, v: Visit, blob: string): string {
    match ConvertRow(cfg, blob, v.target.purpose, cfg.nonces(IdOf(v)))
    case None => blob
    case Some(r) => if r.blob.None? || cfg.dryRun then blob else r.blob.value
  }

  /** The plaintext the migration can recover from a non-empty blob under the given keys. */
  function Plain(c: Cipher, ring: Keyring, blob: string, purpose: string): Option<string> {
    if Strip(blob) == "" then None
    else if Parse(Strip(blob)).Some? then Decrypt(c, ring, blob, purpose)
    else DecryptLegacy(c, ring, blob)
  }

  predicate OnActive(c: Cipher, ring: Keyring, blob: string, purpose: string) {
    ring.active.Some? && Classify(blob) == (EnvelopeBlob, purpose, c.fingerprint(ring.active.value))
  }

  /** b is what the migration owes a row that held b0: the same plaintext on the active key when it is
      recoverable, and the very same bytes when it is empty or not. */
  predicate Finished(c: Cipher, ring: Keyring, purpose: string, b0: string, b: string) {
    if Plain(c, ring, b0, purpose).Some? then
      OnActive(c, ring, b, purpose) && Decrypt(c, ring, b, purpose) == Plain(c, ring, b0, purpose)
    else b == b0
  }

  predicate Underway(c: Cipher, ring: Keyring, purpose: string, b0: string, b: string) {
    b == b0 || Finished(c, ring, purpose, b0, b)
  }

  predicate Ready(ring: Keyring) {
    ring.active.Some? && ring.writeAllowed
  }

  lemma TurnFinishesRow(cfg: Setup, v: Visit, b0: string, b: string)
    requires Sound(cfg.cipher) && RingOk(cfg.cipher, cfg.ring) && Ready(cfg.ring) && v.target in TARGETS
    requires Underway(cfg.cipher, cfg.ring, v.target.purpose, b0, b) && !cfg.dryRun
    ensures Finished(cfg.cipher, cfg.ring, v.target.purpose, b0, NewBlob(cfg, v, b))
  {
    var purpose := v.target.purpose;
    var text := Plain(cfg.cipher, cfg.ring, b, purpose);
    if text.Some? && !OnActive(cfg.cipher, cfg.ring, b, purpose) {
      EncryptRoundTrip(cfg.cipher, cfg.ring, text.value, purpose, cfg.nonces(IdOf(v)), "");
    }
  }

  /** A finished row is never written again. */
  lemma FinishedRowsRest(cfg: Setup, v: Visit, b0: string, b: string)
    requires Ready(cfg.ring) && v.target in TARGETS
    requires Finished(cfg.cipher, cfg.ring, v.target.purpose, b0, b)
    ensures var r := ConvertRow(cfg, b, v.target.purpose, cfg.nonces(IdOf(v)));
      r.None? || r.value.blob.None?
  {
  }

  // ---------------------------------------------------------------- crash and resume

  /** One launch of the command: the nonces it would draw, and how many rows it handles before it dies. */
  datatype Attempt = Attempt(nonces: RowId -> nat, dryRun: bool, rows: nat)

  function Launch(c: Cipher, ring: Keyring, st: St, a: Attempt): St {
    var visits := AllVisits(st.blobs.Keys, TARGETS);
    Sweep(Setup(c, ring, a.nonces, a.dryRun), st.(totals := NO_ROWS), visits[..Min(a.rows, |visits|)])
  }

  function Launches(c: Cipher, ring: Keyring, st: St, attempts: seq<Attempt>): St {
    if attempts == [] then st
    else Launch(c, ring, Launches(c, ring, st, attempts[..|attempts| - 1]), attempts[|attempts| - 1])
  }

  /** The purpose a table's rows are migrated to; "" for tables the command does not know. */
  function PurposeOf(table: string): string {
    if table == TARGETS[0].table then TARGETS[0].purpose
    else if table == TARGETS[1].table then TARGETS[1].purpose
    else ""
  }

  predicate InScope(id: RowId) {
    (id.0 == TARGETS[0].table || id.0 == TARGETS[1].table) && id.1 > 0
  }

  ghost predicate AllUnderway(c: Cipher, ring: Keyring, b0: Blobs, b: Blobs) {
    && b.Keys == b0.Keys
    && forall id :: id in b0 ==>
         if InScope(id) then Underway(c, ring, PurposeOf(id.0), b0[id], b[id]) else b[id] == b0[id]
  }

  predicate RowFinished(c: Cipher, ring: Keyring, b0: Blobs, b: Blobs, id: RowId) {
    id in b0 && id in b && Finished(c, ring, PurposeOf(id.0), b0[id], b[id])
  }

  predicate VisitOf(v: Visit, blobs: Blobs) {
    v.target in TARGETS && v.key > 0 && IdOf(v) in blobs
  }

  lemma PurposeOfTarget(t: Target)
    requires t in TARGETS
    ensures t.purpose == PurposeOf(t.table)
  {
  }

  /** Writing what a row's turn gives keeps every row original or finished, and finishes that row. */
  lemma TurnProgress(cfg: Setup, v: Visit, b0: Blobs, b: Blobs, b': Blobs)
    requires Sound(cfg.cipher) && RingOk(cfg.cipher, cfg.ring) && Ready(cfg.ring)
    requires VisitOf(v, b0) && AllUnderway(cfg.cipher, cfg.ring, b0, b)
    requires b' == b[IdOf(v) := NewBlob(cfg, v, b[IdOf(v)])]
    ensures AllUnderway(cfg.cipher, cfg.ring, b0, b')
    ensures !cfg.dryRun ==> RowFinished(cfg.cipher, cfg.ring, b0, b', IdOf(v))
  {
    PurposeOfTarget(v.target);
    if !cfg.dryRun { TurnFinishesRow(cfg, v, b0[IdOf(v)], b[IdOf(v)]); }
  }

  lemma SweepSnoc(cfg: Setup, st: St, front: seq<Visit>, v: Visit)
    requires IdOf(v) in st.blobs
    ensures var before, st' := Sweep(cfg, st, front), Sweep(cfg, st, front + [v]);
      IdOf(v) in before.blobs && st' == RowStep(cfg, before, v, before.blobs[IdOf(v)])
      && st'.blobs == before.blobs[IdOf(v) := NewBlob(cfg, v, before.blobs[IdOf(v)])]
  {
    SweepKeepsRows(cfg, st, front);
    assert (front + [v])[..|front|] == front;
  }

  /** A sweep over any rows keeps every row original or finished, and finishes those it visits. */
  lemma {:induction false} SweepProgress(cfg: Setup, st: St, visits: seq<Visit>, b0: Blobs)
    requires Sound(cfg.cipher) && RingOk(cfg.cipher, cfg.ring) && Ready(cfg.ring)
    requires forall i :: 0 <= i < |visits| ==> VisitOf(visits[i], b0)
    requires AllUnderway(cfg.cipher, cfg.ring, b0, st.blobs)
    ensures var st' := Sweep(cfg, st, visits);
      && AllUnderway(cfg.cipher, cfg.ring, b0, st'.blobs)
      && (!cfg.dryRun ==> forall i :: 0 <= i < |visits| ==>
            RowFinished(cfg.cipher, cfg.ring, b0, st'.blobs, IdOf(visits[i])))
  {
    if visits != [] {
      var front, v := visits[..|visits| - 1], visits[|visits| - 1];
      assert visits == front + [v] && VisitOf(v, b0);
      SweepProgress(cfg, st, front, b0);
      SweepSnoc(cfg, st, front, v);
      var b, b' := Sweep(cfg, st, front).blobs, Sweep(cfg, st, visits).blobs;
      TurnProgress(cfg, v, b0, b, b');
      forall i | 0 <= i < |visits| && !cfg.dryRun ensures RowFinished(cfg.cipher, cfg.ring, b0, b', IdOf(visits[i])) {
        if i < |front| { assert RowFinished(cfg.cipher, cfg.ring, b0, b, IdOf(front[i])); }
      }
    }
  }

  lemma VisitsAreRows(ids: set<RowId>, some: seq<Visit>, b0: Blobs)
    requires ids == b0.Keys && some <= AllVisits(ids, TARGETS)
    ensures forall i :: 0 <= i < |some| ==> VisitOf(some[i], b0)
  {
    forall i | 0 <= i < |some| ensures VisitOf(some[i], b0) {
      assert some[i] == AllVisits(ids, TARGETS)[i];
      EveryRowVisitedOnce(ids, some[i]);
    }
  }

  lemma RowIsVisited(ids: set<RowId>, id: RowId) returns (i: nat)
    requires id in ids && InScope(id)
    ensures i < |AllVisits(ids, TARGETS)| && IdOf(AllVisits(ids, TARGETS)[i]) == id
  {
    var visits := AllVisits(ids, TARGETS);
    var v := Visit(if id.0 == TARGETS[0].table then TARGETS[0] else TARGETS[1], id.1);
    EveryRowVisitedOnce(ids, v);
    i :| i < |visits| && visits[i] == v;
  }

  lemma LaunchProgress(c: Cipher, ring: Keyring, st: St, a: Attempt, b0: Blobs)
    requires Sound(c) && RingOk(c, ring) && Ready(ring) && AllUnderway(c, ring, b0, st.blobs)
    ensures AllUnderway(c, ring, b0, Launch(c, ring, st, a).blobs)
  {
    var visits := AllVisits(st.blobs.Keys, TARGETS);
    var some := visits[..Min(a.rows, |visits|)];
    VisitsAreRows(st.blobs.Keys, some, b0);
    SweepProgress(Setup(c, ring, a.nonces, a.dryRun), st.(totals := NO_ROWS), some, b0);
  }

  /** Every row is what the migration owes it, and rows out of scope are untouched. */
  ghost predicate AllFinished(c: Cipher, ring: Keyring, b0: Blobs, b: Blobs) {
    && b.Keys == b0.Keys
    && forall id :: id in b0 ==>
         if InScope(id) then Finished(c, ring, PurposeOf(id.0), b0[id], b[id]) else b[id] == b0[id]
  }

  lemma CompleteLaunch(c: Cipher, ring: Keyring, st: St, a: Attempt, b0: Blobs)
    requires Sound(c) && RingOk(c, ring) && Ready(ring) && AllUnderway(c, ring, b0, st.blobs)
    requires !a.dryRun && a.rows >= |AllVisits(st.blobs.Keys, TARGETS)|
    ensures AllFinished(c, ring, b0, Launch(c, ring, st, a).blobs)
  {
    var visits, b := AllVisits(st.blobs.Keys, TARGETS), Launch(c, ring, st, a).blobs;
    VisitsAreRows(st.blobs.Keys, visits, b0);
    assert visits[..Min(a.rows, |visits|)] == visits;
    SweepProgress(Setup(c, ring, a.nonces, a.dryRun), st.(totals := NO_ROWS), visits, b0);
    forall id | id in b0 && InScope(id) ensures Finished(c, ring, PurposeOf(id.0), b0[id], b[id]) {
      var i := RowIsVisited(st.blobs.Keys, id);
      assert RowFinished(c, ring, b0, b, IdOf(visits[i]));
    }
  }

  lemma {:induction false} LaunchesProgress(c: Cipher, ring: Keyring, st: St, attempts: seq<Attempt>)
    requires Sound(c) && RingOk(c, ring) && Ready(ring)
    ensures AllUnderway(c, ring, st.blobs, Launches(c, ring, st, attempts).blobs)
  {
    if attempts != [] {
      LaunchesProgress(c, ring, st, attempts[..|attempts| - 1]);
      LaunchProgress(c, ring, Launches(c, ring, st, attempts[..|attempts| - 1]), attempts[|attempts| - 1], st.blobs);
    }
  }

  lemma {:induction false} FinishedSweepWritesNothing(cfg: Setup, st: St, visits: seq<Visit>, b0: Blobs)
    requires Ready(cfg.ring)
    requires forall i :: 0 <= i < |visits| ==> VisitOf(visits[i], b0)
    requires forall i :: 0 <= i < |visits| ==> RowFinished(cfg.cipher, cfg.ring, b0, st.blobs, IdOf(visits[i]))
    ensures Sweep(cfg, st, visits).blobs == st.blobs && Sweep(cfg, st, visits).log == st.log
  {
    if visits != [] {
      var front, v := visits[..|visits| - 1], visits[|visits| - 1];
      FinishedSweepWritesNothing(cfg, st, front, b0);
      assert VisitOf(v, b0) && RowFinished(cfg.cipher, cfg.ring, b0, st.blobs, IdOf(v));
      PurposeOfTarget(v.target);
      FinishedRowsRest(cfg, v, b0[IdOf(v)], st.blobs[IdOf(v)]);
    }
  }

  lemma FinishedLaunch(c: Cipher, ring: Keyring, st: St, a: Attempt, b0: Blobs)
    requires Ready(ring) && AllFinished(c, ring, b0, st.blobs)
    ensures Launch(c, ring, st, a).blobs == st.blobs && Launch(c, ring, st, a).log == st.log
  {
    var visits := AllVisits(st.blobs.Keys, TARGETS);
    var some := visits[..Min(a.rows, |visits|)];
    VisitsAreRows(st.blobs.Keys, some, b0);
    forall i | 0 <= i < |some| ensures RowFinished(c, ring, b0, st.blobs, IdOf(some[i])) {
      assert VisitOf(some[i], b0);
    }
    FinishedSweepWritesNothing(Setup(c, ring, a.nonces, a.dryRun), st.(totals := NO_ROWS), some, b0);
  }

  /** Crash and resume: after any launches that died anywhere (or were dry), one launch that runs to the
      end leaves every recoverable row on the active key with its original plaintext and purpose, every
      empty or unrecoverable row, and every row out of scope, byte-identical; and any further launch
      writes neither a row nor a log entry. */
  lemma CrashResume(c: Cipher, ring: Keyring, st: St, attempts: seq<Attempt>, last: Attempt, again: Attempt)
    requires Sound(c) && RingOk(c, ring) && Ready(ring)
    requires !last.dryRun && last.rows >= |AllVisits(st.blobs.Keys, TARGETS)|
    ensures var done := Launch(c, ring, Launches(c, ring, st, attempts), last);
      && AllFinished(c, ring, st.blobs, done.blobs)
      && Launch(c, ring, done, again).blobs == done.blobs
      && Launch(c, ring, done, again).log == done.log
  {
    var mid := Launches(c, ring, st, attempts);
    LaunchesProgress(c, ring, st, attempts);
    CompleteLaunch(c, ring, mid, last, st.blobs);
    FinishedLaunch(c, ring, Launch(c, ring, mid, last), again, st.blobs);
  }

  /** The blob is a token of the i-th legacy key for the text, and no envelope; no earlier key opens it. */
  ghost predicate LegacyTokenOf(c: Cipher, ring: Keyring, blob: string, i: nat, text: string, nonce: nat) {
    && i < |ring.legacy| && blob == c.seal(ring.legacy[i], text, nonce) && NoEnvelope(blob)
    && forall j :: 0 <= j < i ==> c.unseal(ring.legacy[j], blob) == None
  }

  /** The blob is an envelope under the purpose and one of the configured keys for the text. */
  ghost predicate EnvelopeOf(c: Cipher, ring: Keyring, blob: string, purpose: string, key: Secret, text: string,
                             nonce: nat) {
    && c.fingerprint(key) in ring.keys && ring.keys[c.fingerprint(key)] == key && Colonless(purpose)
    && blob == Format(Envelope(purpose, c.fingerprint(key), c.seal(key, text, nonce)))
  }

  lemma PlainOfLegacy(c: Cipher, ring: Keyring, blob: string, purpose: string, i: nat, text: string, nonce: nat)
    requires Sound(c) && LegacyTokenOf(c, ring, blob, i, text, nonce)
    ensures Plain(c, ring, blob, purpose) == Some(text)
  {
    StripTrimmed(blob);
    assert FirstToOpen(c, ring.legacy, blob, i, text);
    DecryptLegacyIff(c, ring, blob, text);
    if Parse(blob).Some? {
      FormatParse(blob);
      assert false;
    }
  }

  lemma PlainOfEnvelope(c: Cipher, ring: Keyring, blob: string, purpose: string, key: Secret, text: string, nonce: nat)
    requires Sound(c) && EnvelopeOf(c, ring, blob, purpose, key, text, nonce)
    ensures Plain(c, ring, blob, purpose) == Some(text)
  {
    var e := Envelope(purpose, c.fingerprint(key), c.seal(key, text, nonce));
    ParseFormat(e);
    assert blob[0] == 'v' && blob[|blob| - 1] == e.token[|e.token| - 1];
    StripTrimmed(blob);
    DecryptIff(c, ring, blob, purpose, text);
  }

  /** In terms of the cipher alone: after interrupted launches and a complete one, a row that was sealed for a
      text, as a legacy token or in an envelope under its table's purpose, is an envelope on the active key that
      decrypts to that text. */
  lemma SealedTextsSurvive(c: Cipher, ring: Keyring, st: St, attempts: seq<Attempt>, last: Attempt, id: RowId,
                           i: nat, key: Secret, text: string, nonce: nat)
    requires Sound(c) && RingOk(c, ring) && Ready(ring) && id in st.blobs && InScope(id)
    requires !last.dryRun && last.rows >= |AllVisits(st.blobs.Keys, TARGETS)|
    requires LegacyTokenOf(c, ring, st.blobs[id], i, text, nonce)
             || EnvelopeOf(c, ring, st.blobs[id], PurposeOf(id.0), key, text, nonce)
    ensures var done := Launch(c, ring, Launches(c, ring, st, attempts), last);
      && id in done.blobs && Decrypt(c, ring, done.blobs[id], PurposeOf(id.0)) == Some(text)
      && OnActive(c, ring, done.blobs[id], PurposeOf(id.0))
  {
    CrashResume(c, ring, st, attempts, last, last);
    if LegacyTokenOf(c, ring, st.blobs[id], i, text, nonce) {
      PlainOfLegacy(c, ring, st.blobs[id], PurposeOf(id.0), i, text, nonce);
    } else {
      PlainOfEnvelope(c, ring, st.blobs[id], PurposeOf(id.0), key, text, nonce);
    }
  }

  // ---------------------------------------------------------------- audit chain

  /** Follows a row's log entries from a checksum: each must start where the previous one ended. */
  function Trail(log: seq<LogEntry>, id: RowId, start: string): Option<string> {
    if log == [] then Some(start)
    else
      var before, e := Trail(log[..|log| - 1], id, start), log[|log| - 1];
      if e.row != id then before
      else if before == Some(e.sourceSha) then Some(e.targetSha) else None
  }

  function EntriesOf(log: seq<LogEntry>, id: RowId): nat {
    if log == [] then 0 else EntriesOf(log[..|log| - 1], id) + if log[|log| - 1].row == id then 1 else 0
  }

  function LatestOf(log: seq<LogEntry>, id: RowId): Option<LogEntry> {
    if log == [] then None
    else if log[|log| - 1].row == id then Some(log[|log| - 1])
    else LatestOf(log[..|log| - 1], id)
  }

  /** The latest entry for a row, if any, names the purpose and key its stored envelope carries. */
  predicate LogDescribes(log: seq<LogEntry>, id: RowId, blob: string) {
    var e := LatestOf(log, id);
    e.Some? ==> Classify(blob) == (EnvelopeBlob, e.value.purpose, e.value.targetKeyId)
  }

  /** A row's entries link up from the checksum `start` to the checksum of what it holds, and the latest
      of them describes that. */
  predicate Audited(c: Cipher, st: St, id: RowId, start: string) {
    && id in st.blobs && Trail(st.log, id, start) == Some(c.sha256(st.blobs[id]))
    && LogDescribes(st.log, id, st.blobs[id])
  }

  /** The row's turn rewrites it. */
  predicate Converts(cfg: Setup, v: Visit, blob: string) {
    var r := ConvertRow(cfg, blob, v.target.purpose, cfg.nonces(IdOf(v)));
    !cfg.dryRun && r.Some? && r.value.blob.Some?
  }

  /** How often a sweep rewrites one row. */
  function Conversions(cfg: Setup, st: St, visits: seq<Visit>, id: RowId): nat {
    if visits == [] then 0
    else
      var front, v := visits[..|visits| - 1], visits[|visits| - 1];
      var mid := Sweep(cfg, st, front);
      Conversions(cfg, st, front, id)
      + if IdOf(v) == id && id in mid.blobs && Converts(cfg, v, mid.blobs[id]) then 1 else 0
  }

  lemma OneEntryMore(log: seq<LogEntry>, e: LogEntry, id: RowId, start: string)
    ensures var log' := log + [e];
      && Trail(log', id, start) == (if e.row != id then Trail(log, id, start)
                                    else if Trail(log, id, start) == Some(e.sourceSha) then Some(e.targetSha) else None)
      && LatestOf(log', id) == (if e.row == id then Some(e) else LatestOf(log, id))
      && EntriesOf(log', id) == EntriesOf(log, id) + if e.row == id then 1 else 0
  {
    assert (log + [e])[..|log|] == log;
  }

  lemma ConvertedBlob(cfg: Setup, v: Visit, blob: string)
    requires Sound(cfg.cipher) && RingOk(cfg.cipher, cfg.ring) && Converts(cfg, v, blob)
    ensures var b := ConvertRow(cfg, blob, v.target.purpose, cfg.nonces(IdOf(v))).value.blob.value;
      Classify(b) == (EnvelopeBlob, v.target.purpose, TargetKeyId(b))
  {
    var text := Plain(cfg.cipher, cfg.ring, blob, v.target.purpose);
    EncryptRoundTrip(cfg.cipher, cfg.ring, text.value, v.target.purpose, cfg.nonces(IdOf(v)), "");
  }

  lemma TurnWrites(cfg: Setup, st: St, v: Visit, blob: string)
    ensures var st' := RowStep(cfg, st, v, blob);
      if Converts(cfg, v, blob) then
        var r := ConvertRow(cfg, blob, v.target.purpose, cfg.nonces(IdOf(v))).value;
        && st'.blobs == st.blobs[IdOf(v) := r.blob.value]
        && st'.log == st.log + [Entry(cfg, IdOf(v), v.target.purpose, blob, r)]
      else st'.blobs == st.blobs && st'.log == st.log
  {
  }

  lemma TurnOnRowKeepsAudit(cfg: Setup, st: St, v: Visit, start: string)
    requires Sound(cfg.cipher) && RingOk(cfg.cipher, cfg.ring) && Audited(cfg.cipher, st, IdOf(v), start)
    requires Converts(cfg, v, st.blobs[IdOf(v)])
    ensures var id, st' := IdOf(v), RowStep(cfg, st, v, st.blobs[IdOf(v)]);
      Audited(cfg.cipher, st', id, start) && EntriesOf(st'.log, id) == EntriesOf(st.log, id) + 1
  {
    var id, blob := IdOf(v), st.blobs[IdOf(v)];
    var r := ConvertRow(cfg, blob, v.target.purpose, cfg.nonces(id));
    TurnWrites(cfg, st, v, blob);
    OneEntryMore(st.log, Entry(cfg, id, v.target.purpose, blob, r.value), id, start);
    ConvertedBlob(cfg, v, blob);
  }

  lemma TurnElsewhereKeepsAudit(cfg: Setup, st: St, v: Visit, id: RowId, start: string)
    requires IdOf(v) in st.blobs && Audited(cfg.cipher, st, id, start)
    requires IdOf(v) != id || !Converts(cfg, v, st.blobs[IdOf(v)])
    ensures var st' := RowStep(cfg, st, v, st.blobs[IdOf(v)]);
      && Audited(cfg.cipher, st', id, start) && EntriesOf(st'.log, id) == EntriesOf(st.log, id)
      && st'.blobs[id] == st.blobs[id]
  {
    var blob := st.blobs[IdOf(v)];
    TurnWrites(cfg, st, v, blob);
    if Converts(cfg, v, blob) {
      var r := ConvertRow(cfg, blob, v.target.purpose, cfg.nonces(IdOf(v)));
      OneEntryMore(st.log, Entry(cfg, IdOf(v), v.target.purpose, blob, r.value), id, start);
    }
  }

  /** The audit chain survives every sweep, under any keys: a row's entries link up from the checksum it
      had before the first of them to the checksum of what it holds now, the latest of them names the
      purpose and key its envelope is on, and the sweep added exactly one for each time it rewrote the
      row, which it left alone otherwise. */
  lemma {:induction false} AuditChain(cfg: Setup, st: St, visits: seq<Visit>, id: RowId, start: string)
    requires Sound(cfg.cipher) && RingOk(cfg.cipher, cfg.ring) && Audited(cfg.cipher, st, id, start)
    ensures var st' := Sweep(cfg, st, visits);
      && Audited(cfg.cipher, st', id, start)
      && EntriesOf(st'.log, id) == EntriesOf(st.log, id) + Conversions(cfg, st, visits, id)
      && (Conversions(cfg, st, visits, id) == 0 ==> st'.blobs[id] == st.blobs[id])
  {
    if visits != [] {
      var front, v := visits[..|visits| - 1], visits[|visits| - 1];
      AuditChain(cfg, st, front, id, start);
      var mid := Sweep(cfg, st, front);
      if IdOf(v) in mid.blobs {
        if IdOf(v) == id && Converts(cfg, v, mid.blobs[id]) {
          TurnOnRowKeepsAudit(cfg, mid, v, start);
        } else {
          TurnElsewhereKeepsAudit(cfg, mid, v, id, start);
        }
      }
    }
  }

  /** How often a series of launches, each with its own keys, rewrites one row. */
  function Rewrites(c: Cipher, b0: Blobs, rings: seq<Keyring>, attempts: seq<Attempt>, id: RowId): nat
    requires |rings| == |attempts|
  {
    if attempts == [] then 0
    else
      var n := |attempts| - 1;
      var st, a := Rotations(c, b0, rings[..n], attempts[..n]), attempts[n];
      var visits := AllVisits(st.blobs.Keys, TARGETS);
      Rewrites(c, b0, rings[..n], attempts[..n], id)
      + Conversions(Setup(c, rings[n], a.nonces, a.dryRun), st.(totals := NO_ROWS), visits[..Min(a.rows, |visits|)], id)
  }

  lemma LaunchKeepsAudit(c: Cipher, ring: Keyring, st: St, a: Attempt, id: RowId, start: string)
    requires Sound(c) && RingOk(c, ring) && Audited(c, st, id, start)
    ensures var visits, st' := AllVisits(st.blobs.Keys, TARGETS), Launch(c, ring, st, a);
      var n := Conversions(Setup(c, ring, a.nonces, a.dryRun), st.(totals := NO_ROWS),
                           visits[..Min(a.rows, |visits|)], id);
      && st'.blobs.Keys == st.blobs.Keys && Audited(c, st', id, start)
      && EntriesOf(st'.log, id) == EntriesOf(st.log, id) + n
  {
    var visits := AllVisits(st.blobs.Keys, TARGETS);
    var cfg, some := Setup(c, ring, a.nonces, a.dryRun), visits[..Min(a.rows, |visits|)];
    AuditChain(cfg, st.(totals := NO_ROWS), some, id, start);
    SweepKeepsRows(cfg, st.(totals := NO_ROWS), some);
  }

  /** The same from an empty log, over any number of launches that each use their own keys: at any time a
      row has one entry for each time it was rewritten, and they lead from its first checksum to its last. */
  lemma {:induction false} AuditChainAcrossRotations(c: Cipher, b0: Blobs, rings: seq<Keyring>,
                                                     attempts: seq<Attempt>, id: RowId)
    requires Sound(c) && |rings| == |attempts| && id in b0
    requires forall i :: 0 <= i < |rings| ==> RingOk(c, rings[i])
    ensures var st := Rotations(c, b0, rings, attempts);
      && st.blobs.Keys == b0.Keys && Audited(c, st, id, c.sha256(b0[id]))
      && EntriesOf(st.log, id) == Rewrites(c, b0, rings, attempts, id)
  {
    if attempts != [] {
      var n := |attempts| - 1;
      AuditChainAcrossRotations(c, b0, rings[..n], attempts[..n], id);
      LaunchKeepsAudit(c, rings[n], Rotations(c, b0, rings[..n], attempts[..n]), attempts[n], id, c.sha256(b0[id]));
    }
  }

  function Rotations(c: Cipher, b0: Blobs, rings: seq<Keyring>, attempts: seq<Attempt>): St
    requires |rings| == |attempts|
  {
    if attempts == [] then St(b0, [], NO_ROWS)
    else
      var n := |attempts| - 1;
      Launch(c, rings[n], Rotations(c, b0, rings[..n], attempts[..n]), attempts[n])
  }

  // ---------------------------------------------------------------- totals

  function Sum(t: Totals): nat {
    t.legacy + t.envelope + t.current + t.empty + t.error
  }

  lemma RowAddsUp(cfg: Setup, st: St, v: Visit, blob: string)
    ensures var st' := RowStep(cfg, st, v, blob);
      && Sum(st'.totals) == Sum(st.totals) + 1
      && (!cfg.dryRun ==>
            |st'.log| == |st.log| + (st'.totals.legacy - st.totals.legacy) + (st'.totals.envelope - st.totals.envelope))
      && (cfg.dryRun ==> st'.blobs == st.blobs && st'.log == st.log)
  {
  }

  /** Every visited row is counted once; a real sweep adds one log entry for each legacy or envelope row it
      counts, a dry one none; and a dry sweep writes nothing. */
  lemma {:induction false} TotalsAddUp(cfg: Setup, st: St, visits: seq<Visit>)
    requires forall i :: 0 <= i < |visits| ==> IdOf(visits[i]) in st.blobs
    ensures var st' := Sweep(cfg, st, visits);
      && Sum(st'.totals) == Sum(st.totals) + |visits|
      && (!cfg.dryRun ==>
            |st'.log| == |st.log| + (st'.totals.legacy - st.totals.legacy) + (st'.totals.envelope - st.totals.envelope))
      && (cfg.dryRun ==> st'.blobs == st.blobs && st'.log == st.log)
  {
    if visits != [] {
      var front, v := visits[..|visits| - 1], visits[|visits| - 1];
      TotalsAddUp(cfg, st, front);
      SweepKeepsRows(cfg, st, front);
      var mid := Sweep(cfg, st, front);
      assert IdOf(v) in mid.blobs;
      RowAddsUp(cfg, mid, v, mid.blobs[IdOf(v)]);
    }
  }

  /** A row to re-encrypt: a key is configured, the plaintext is recoverable and not on that key yet. */
  predicate NeedsWork(cfg: Setup, v: Visit, blob: string) {
    cfg.ring.active.Some?
    && Plain(cfg.cipher, cfg.ring, blob, v.target.purpose).Some?
    && !OnActive(cfg.cipher, cfg.ring, blob, v.target.purpose)
  }

  lemma SweepReadsOriginals(cfg: Setup, st: St, front: seq<Visit>, id: RowId)
    requires id in st.blobs && forall i :: 0 <= i < |front| ==> IdOf(front[i]) != id
    ensures id in Sweep(cfg, st, front).blobs && Sweep(cfg, st, front).blobs[id] == st.blobs[id]
  {
    if front != [] { SweepReadsOriginals(cfg, st, front[..|front| - 1], id); }
  }

  predicate NoWork(cfg: Setup, st: St, visits: seq<Visit>)
    requires forall i :: 0 <= i < |visits| ==> IdOf(visits[i]) in st.blobs
  {
    forall i :: 0 <= i < |visits| ==> !NeedsWork(cfg, visits[i], st.blobs[IdOf(visits[i])])
  }

  /** What a row is counted as; None is an error. */
  function Tally(cfg: Setup, v: Visit, blob: string): Option<Kind> {
    match ConvertRow(cfg, blob, v.target.purpose, cfg.nonces(IdOf(v)))
    case None => None
    case Some(r) => Some(r.kind)
  }

  function Tallied(t: Totals, k: Option<Kind>): Totals {
    match k
    case None => t.(error := t.error + 1)
    case Some(kind) => Count(t, kind)
  }

  lemma TalliesCompared(cfg: Setup, v: Visit, blob: string)
    requires !cfg.dryRun && v.target in TARGETS
    ensures var dry, live := Tally(cfg.(dryRun := true), v, blob), Tally(cfg, v, blob);
      if cfg.ring.writeAllowed || !NeedsWork(cfg, v, blob) then dry == live else dry.Some? && live.None?
  {
  }

  /** The totals of a sweep whose rows are all still as they were: no row is visited twice. */
  function TallyAll(cfg: Setup, st: St, visits: seq<Visit>): Totals
    requires forall i :: 0 <= i < |visits| ==> IdOf(visits[i]) in st.blobs
  {
    if visits == [] then st.totals
    else
      var v := visits[|visits| - 1];
      Tallied(TallyAll(cfg, st, visits[..|visits| - 1]), Tally(cfg, v, st.blobs[IdOf(v)]))
  }

  lemma {:induction false} SweepTallies(cfg: Setup, st: St, visits: seq<Visit>)
    requires OnceEach(visits) && forall i :: 0 <= i < |visits| ==> IdOf(visits[i]) in st.blobs
    ensures Sweep(cfg, st, visits).totals == TallyAll(cfg, st, visits)
  {
    if visits != [] {
      var front, v := visits[..|visits| - 1], visits[|visits| - 1];
      assert visits == front + [v];
      OnceEachSnoc(front, v);
      SweepTallies(cfg, st, front);
      SweepReadsOriginals(cfg, st, front, IdOf(v));
    }
  }

  lemma OneMoreTally(dry: Totals, live: Totals, d: Option<Kind>, l: Option<Kind>)
    requires dry == live || dry.error < live.error
    requires d == l || (d.Some? && l.None?)
    ensures dry == live && d == l ==> Tallied(dry, d) == Tallied(live, l)
    ensures dry.error < live.error || d != l ==> Tallied(dry, d).error < Tallied(live, l).error
  {
  }

  lemma {:induction false} TalliesDiverge(cfg: Setup, st: St, visits: seq<Visit>)
    requires !cfg.dryRun
    requires forall i :: 0 <= i < |visits| ==> visits[i].target in TARGETS && IdOf(visits[i]) in st.blobs
    ensures var dry, live := TallyAll(cfg.(dryRun := true), st, visits), TallyAll(cfg, st, visits);
      if cfg.ring.writeAllowed || NoWork(cfg, st, visits) then dry == live else dry.error < live.error
  {
    if visits != [] {
      var front, v := visits[..|visits| - 1], visits[|visits| - 1];
      assert visits == front + [v];
      var dry := cfg.(dryRun := true);
      TalliesDiverge(cfg, st, front);
      TalliesCompared(cfg, v, st.blobs[IdOf(v)]);
      NoWorkSnoc(cfg, st, front, v);
      OneMoreTally(TallyAll(dry, st, front), TallyAll(cfg, st, front),
                   Tally(dry, v, st.blobs[IdOf(v)]), Tally(cfg, v, st.blobs[IdOf(v)]));
    }
  }

  /** A dry run predicts the real run's totals exactly when the process may write credentials or there is
      no row to re-encrypt; otherwise the real run reports more errors. */
  lemma DryRunPredictsIff(cfg: Setup, st: St, visits: seq<Visit>)
    requires OnceEach(visits) && !cfg.dryRun
    requires forall i :: 0 <= i < |visits| ==> visits[i].target in TARGETS && IdOf(visits[i]) in st.blobs
    ensures var dry, live := Sweep(cfg.(dryRun := true), st, visits).totals, Sweep(cfg, st, visits).totals;
      if cfg.ring.writeAllowed || NoWork(cfg, st, visits) then dry == live else dry.error < live.error
  {
    SweepTallies(cfg, st, visits);
    SweepTallies(cfg.(dryRun := true), st, visits);
    TalliesDiverge(cfg, st, visits);
  }

  // ---------------------------------------------------------------- what is counted, and what is logged

  datatype What = WasEmpty | WasCurrent | WasLegacy | WasEnvelope | Failed

  /** What a row comes to: blank, already on the active key, recovered from a legacy token or from another
      envelope, or an error: nothing recoverable, no key configured, or a write that is not allowed. */
  function WhatOf(cfg: Setup, v: Visit, blob: string): What {
    if Strip(blob) == "" then WasEmpty
    else if OnActive(cfg.cipher, cfg.ring, blob, v.target.purpose) then WasCurrent
    else if !NeedsWork(cfg, v, blob) || !(cfg.dryRun || cfg.ring.writeAllowed) then Failed
    else if Parse(Strip(blob)).Some? then WasEnvelope
    else WasLegacy
  }

  /** How many of the rows, as they are before the sweep, come to this. */
  function HowMany(cfg: Setup, st: St, visits: seq<Visit>, what: What): nat
    requires forall i :: 0 <= i < |visits| ==> IdOf(visits[i]) in st.blobs
  {
    if visits == [] then 0
    else
      var v := visits[|visits| - 1];
      HowMany(cfg, st, visits[..|visits| - 1], what) + if WhatOf(cfg, v, st.blobs[IdOf(v)]) == what then 1 else 0
  }

  lemma TallyIsWhat(cfg: Setup, v: Visit, blob: string)
    requires v.target in TARGETS
    ensures Tally(cfg, v, blob)
         == match WhatOf(cfg, v, blob)
            case WasEmpty => Some(Empty)
            case WasCurrent => Some(Current)
            case WasLegacy => Some(LegacyBlob)
            case WasEnvelope => Some(EnvelopeBlob)
            case Failed => None
  {
  }

  lemma {:induction false} TallyCounts(cfg: Setup, st: St, visits: seq<Visit>)
    requires forall i :: 0 <= i < |visits| ==> visits[i].target in TARGETS && IdOf(visits[i]) in st.blobs
    ensures var t := TallyAll(cfg, st, visits);
      && t.empty == st.totals.empty + HowMany(cfg, st, visits, WasEmpty)
      && t.current == st.totals.current + HowMany(cfg, st, visits, WasCurrent)
      && t.legacy == st.totals.legacy + HowMany(cfg, st, visits, WasLegacy)
      && t.envelope == st.totals.envelope + HowMany(cfg, st, visits, WasEnvelope)
      && t.error == st.totals.error + HowMany(cfg, st, visits, Failed)
  {
    if visits != [] {
      var v := visits[|visits| - 1];
      TallyCounts(cfg, st, visits[..|visits| - 1]);
      TallyIsWhat(cfg, v, st.blobs[IdOf(v)]);
    }
  }

  /** Each total counts the rows of its kind. */
  lemma TotalsByKind(cfg: Setup, st: St, visits: seq<Visit>)
    requires OnceEach(visits)
    requires forall i :: 0 <= i < |visits| ==> visits[i].target in TARGETS && IdOf(visits[i]) in st.blobs
    ensures var t := Sweep(cfg, st, visits).totals;
      && t.empty == st.totals.empty + HowMany(cfg, st, visits, WasEmpty)
      && t.current == st.totals.current + HowMany(cfg, st, visits, WasCurrent)
      && t.legacy == st.totals.legacy + HowMany(cfg, st, visits, WasLegacy)
      && t.envelope == st.totals.envelope + HowMany(cfg, st, visits, WasEnvelope)
      && t.error == st.totals.error + HowMany(cfg, st, visits, Failed)
  {
    SweepTallies(cfg, st, visits);
    TallyCounts(cfg, st, visits);
  }

  /** Which rows are migrated, and under which purpose. */
  lemma ScopeIs(id: RowId)
    ensures InScope(id) <==> (id.0 == "qd_exchange_credentials" || id.0 == "qd_user_mfa") && id.1 > 0
    ensures PurposeOf("qd_exchange_credentials") == "broker-credential" && PurposeOf("qd_user_mfa") == "mfa-secret"
  {
  }

  /** A dry run announces a conversion exactly for the rows that need work, and a row on the active key is
      reported as current under that key, dry or not. */
  lemma AnnouncedIff(cfg: Setup, v: Visit, blob: string)
    requires v.target in TARGETS
    ensures var r := ConvertRow(cfg, blob, v.target.purpose, cfg.nonces(IdOf(v)));
      && (cfg.dryRun ==> (r.Some? && r.value.blob.Some? <==> NeedsWork(cfg, v, blob)))
      && (OnActive(cfg.cipher, cfg.ring, blob, v.target.purpose) ==>
            r == Some(Converted(None, Current, cfg.cipher.fingerprint(cfg.ring.active.value))))
  {
  }

  /** A turn that rewrites a row logs what the row was before: a legacy token, or an envelope and its key. */
  lemma EntryNamesTheSource(cfg: Setup, st: St, v: Visit)
    requires IdOf(v) in st.blobs && Converts(cfg, v, st.blobs[IdOf(v)])
    ensures var blob, log := Strip(st.blobs[IdOf(v)]), Sweep(cfg, st, [v]).log;
      |log| == |st.log| + 1 && log[..|st.log|] == st.log && log[|st.log|].row == IdOf(v)
      && (log[|st.log|].kind, log[|st.log|].sourceKeyId)
         == match Parse(blob)
            case None => (LegacyBlob, "legacy")
            case Some(e) => (EnvelopeBlob, e.keyId)
  {
    assert [v][..0] == [] && Sweep(cfg, st, []) == st;
  }

  lemma OnceEachSnoc(front: seq<Visit>, v: Visit)
    requires OnceEach(front + [v])
    ensures OnceEach(front) && forall i :: 0 <= i < |front| ==> IdOf(front[i]) != IdOf(v)
  {
    var visits := front + [v];
    forall i | 0 <= i < |front|
      ensures IdOf(front[i]) != IdOf(v) { assert visits[i] == front[i] && visits[|front|] == v; }
    forall i, j | 0 <= i < j < |front| ensures IdOf(front[i]) != IdOf(front[j]) {
      assert visits[i] == front[i] && visits[j] == front[j];
    }
  }

  lemma NoWorkSnoc(cfg: Setup, st: St, front: seq<Visit>, v: Visit)
    requires forall i :: 0 <= i < |front + [v]| ==> IdOf((front + [v])[i]) in st.blobs
    requires forall i :: 0 <= i < |front| ==> IdOf(front[i]) in st.blobs
    ensures NoWork(cfg, st, front + [v])
        <==> NoWork(cfg, st, front) && !NeedsWork(cfg, v, st.blobs[IdOf((front + [v])[|front|])])
  {
    var visits := front + [v];
    assert visits[|front|] == v;
    assert forall i :: 0 <= i < |front| ==> visits[i] == front[i];
  }
}
