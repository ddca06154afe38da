/**
 The stored form of credentials (app/utils/credential_crypto.py): versioned envelopes
 "v2:<purpose>:<key-id>:<token>" and legacy tokens, over an abstract authenticated cipher.
 */
module CredentialEnvelope {
  import opened Common

  type Secret = string

  /** The primitives the envelope layer is built on: Fernet with a nonce, the key fingerprint, SHA-256. */
  datatype Cipher = Cipher(
    seal: (Secret, string, nat) -> string,
    unseal: (Secret, string) -> Option<string>,
    fingerprint: Secret -> string,
    sha256: string -> string)

  /** What the environment configures: decryption keys by fingerprint, the active key, the keys tried on
      legacy blobs, and whether this process may persist credentials. */
  datatype Keyring = Keyring(keys: map<string, Secret>, active: Option<Secret>, legacy: seq<Secret>, writeAllowed: bool)

  datatype Envelope = Envelope(purpose: string, keyId: string, token: string)

  datatype Kind = LegacyBlob | EnvelopeBlob | Current | Empty

  const BROKER := "broker-credential"
  const MFA := "mfa-secret"

  // ---------------------------------------------------------------- text

  predicate IsSpace(c: char) {
    c == ' ' || ('\t' <= c <= '\r') || ('\U{1C}' <= c <= '\U{1F}')
  }

  function StripLeft(s: string): string {
    if s != "" && IsSpace(s[0]) then StripLeft(s[1..]) else s
  }

  function StripRight(s: string): string {
    if s != "" && IsSpace(s[|s| - 1]) then StripRight(s[..|s| - 1]) else s
  }

  function Strip(s: string): string {
    StripRight(StripLeft(s))
  }

  /** The text before and after the first colon. */
  function Cut(s: string): Option<(string, string)> {
    if s == "" then None
    else if s[0] == ':' then Some(("", s[1..]))
    else
      match Cut(s[1..])
      case None => None
      case Some((a, b)) => Some(([s[0]] + a, b))
  }

  function Format(e: Envelope): string {
    "v2:" + e.purpose + ":" + e.keyId + ":" + e.token
  }

  /** split(":", 3) into a v2 envelope with three non-empty parts. */
  function Parse(s: string): Option<Envelope> {
    match Cut(s)
    case None => None
    case Some((version, r1)) =>
      match Cut(r1)
      case None => None
      case Some((purpose, r2)) =>
        match Cut(r2)
        case None => None
        case Some((keyId, token)) =>
          if version != "v2" || purpose == "" || keyId == "" || token == "" then None
          else Some(Envelope(purpose, keyId, token))
  }

  /** The third colon-separated field, or "?" when there are fewer than three colons. */
  function TargetKeyId(blob: string): string {
    match Cut(blob)
    case None => "?"
    case Some((_, r1)) =>
      match Cut(r1)
      case None => "?"
      case Some((_, r2)) =>
        match Cut(r2)
        case None => "?"
        case Some((keyId, _)) => keyId
  }

  predicate Colonless(s: string) {
    s != "" && ':' !in s
  }

  predicate Trimmed(s: string) {
    s != "" && !IsSpace(s[0]) && !IsSpace(s[|s| - 1])
  }

  lemma {:induction false} CutAtFirstColon(a: string, b: string)
    requires ':' !in a
    ensures Cut(a + ":" + b) == Some((a, b))
  {
    if a == "" {
      assert a + ":" + b == ":" + b;
    } else {
      assert (a + ":" + b)[1..] == a[1..] + ":" + b;
      CutAtFirstColon(a[1..], b);
      assert a == [a[0]] + a[1..] && (a + ":" + b)[0] == a[0];
    }
  }

  lemma {:induction false} CutIsASplit(s: string)
    requires Cut(s).Some?
    ensures s == Cut(s).value.0 + ":" + Cut(s).value.1 && ':' !in Cut(s).value.0
  {
    if s[0] != ':' {
      CutIsASplit(s[1..]);
      assert s == [s[0]] + s[1..];
    }
  }

  /** Parsing inverts formatting, and formatting inverts parsing. */
  lemma ParseFormat(e: Envelope)
    requires Colonless(e.purpose) && Colonless(e.keyId) && e.token != ""
    ensures Parse(Format(e)) == Some(e) && TargetKeyId(Format(e)) == e.keyId
  {
    var r2 := e.keyId + ":" + e.token;
    var r1 := e.purpose + ":" + r2;
    assert Format(e) == "v2" + ":" + r1;
    CutAtFirstColon("v2", r1);
    CutAtFirstColon(e.purpose, r2);
    CutAtFirstColon(e.keyId, e.token);
  }

  lemma FormatParse(s: string)
    requires Parse(s).Some?
    ensures Format(Parse(s).value) == s
    ensures Colonless(Parse(s).value.purpose) && Colonless(Parse(s).value.keyId) && Parse(s).value.token != ""
  {
    var r1 := Cut(s).value.1;
    var r2 := Cut(r1).value.1;
    CutIsASplit(s);
    CutIsASplit(r1);
    CutIsASplit(r2);
    var e := Parse(s).value;
    assert r2 == e.keyId + ":" + e.token;
    assert s == "v2" + ":" + (e.purpose + ":" + (e.keyId + ":" + e.token));
  }

  lemma StripTrimmed(s: string)
    requires Trimmed(s)
    ensures Strip(s) == s
  {
  }

  predicate AllSpace(s: string) {
    forall i :: 0 <= i < |s| ==> IsSpace(s[i])
  }

  lemma {:induction false} StripLeftIs(s: string)
    ensures exists lead :: AllSpace(lead) && s == lead + StripLeft(s)
    ensures StripLeft(s) == "" || !IsSpace(StripLeft(s)[0])
  {
    if s != "" && IsSpace(s[0]) {
      StripLeftIs(s[1..]);
      var lead :| AllSpace(lead) && s[1..] == lead + StripLeft(s[1..]);
      assert AllSpace([s[0]] + lead) && s == [s[0]] + lead + StripLeft(s);
    } else {
      assert AllSpace("") && s == "" + StripLeft(s);
    }
  }

  lemma {:induction false} StripRightIs(s: string)
    ensures exists trail :: AllSpace(trail) && s == StripRight(s) + trail
    ensures StripRight(s) == "" || (!IsSpace(StripRight(s)[|StripRight(s)| - 1]) && StripRight(s)[0] == s[0])
  {
    if s != "" && IsSpace(s[|s| - 1]) {
      var front, last := s[..|s| - 1], [s[|s| - 1]];
      StripRightIs(front);
      var trail :| AllSpace(trail) && front == StripRight(front) + trail;
      assert AllSpace(trail + last) && s == StripRight(s) + (trail + last);
    } else {
      assert AllSpace("") && s == StripRight(s) + "";
    }
  }

  /** Stripping takes white space off both ends and nothing else, until none is left there. */
  lemma StripIs(s: string)
    ensures exists lead, trail :: AllSpace(lead) && AllSpace(trail) && s == lead + Strip(s) + trail
    ensures Strip(s) == "" || Trimmed(Strip(s))
  {
    StripLeftIs(s);
    StripRightIs(StripLeft(s));
    var lead :| AllSpace(lead) && s == lead + StripLeft(s);
    var trail :| AllSpace(trail) && StripLeft(s) == Strip(s) + trail;
    assert s == lead + Strip(s) + trail;
  }

  // ---------------------------------------------------------------- the cipher's laws

  ghost predicate Sound(c: Cipher) {
    && (forall k: Secret, text: string, n: nat {:trigger c.seal(k, text, n)} ::
          c.unseal(k, c.seal(k, text, n)) == Some(text) && Trimmed(c.seal(k, text, n)))
    && (forall k: Secret {:trigger c.fingerprint(k)} :: Colonless(c.fingerprint(k)))
  }

  /** The key collection is addressed by fingerprint and contains the active key. */
  predicate RingOk(c: Cipher, ring: Keyring) {
    ring.active.Some? ==>
      var id := c.fingerprint(ring.active.value);
      id in ring.keys && ring.keys[id] == ring.active.value
  }

  // ---------------------------------------------------------------- encrypt and decrypt

  function Encrypt(c: Cipher, ring: Keyring, text: string, purpose: string, nonce: nat): Option<string> {
    if purpose != BROKER && purpose != MFA then None
    else if !ring.writeAllowed || ring.active.None? then None
    else
      var key := ring.active.value;
      Some(Format(Envelope(purpose, c.fingerprint(key), c.seal(key, text, nonce))))
  }

  function Decrypt(c: Cipher, ring: Keyring, stored: string, purpose: string): Option<string> {
    var s := Strip(stored);
    if s == "" then Some("")
    else
      match Parse(s)
      case None => None
      case Some(e) =>
        if e.purpose != purpose || e.keyId !in ring.keys then None
        else c.unseal(ring.keys[e.keyId], e.token)
  }

  function FirstUnseal(c: Cipher, secrets: seq<Secret>, token: string): Option<string> {
    if secrets == [] then None
    else if c.unseal(secrets[0], token).Some? then c.unseal(secrets[0], token)
    else FirstUnseal(c, secrets[1..], token)
  }

  function DecryptLegacy(c: Cipher, ring: Keyring, stored: string): Option<string> {
    var s := Strip(stored);
    if s == "" then Some("")
    else if Parse(s).Some? then None
    else FirstUnseal(c, ring.legacy, s)
  }

  /** Kind, purpose and key id of a stored blob; an envelope is never reported as Current here. */
  function Classify(blob: string): (Kind, string, string) {
    if Strip(blob) == "" then (Empty, "", "")
    else
      match Parse(Strip(blob))
      case Some(e) => (EnvelopeBlob, e.purpose, e.keyId)
      case None => (LegacyBlob, "", "")
  }

  /** The text an envelope gives: it carries the purpose, names a configured key, and that key opens it. */
  lemma DecryptIff(c: Cipher, ring: Keyring, stored: string, purpose: string, text: string)
    ensures Decrypt(c, ring, stored, purpose) == Some(text)
       <==> (if Strip(stored) == "" then text == ""
             else exists keyId, token :: Colonless(purpose) && Colonless(keyId) && token != ""
                    && Strip(stored) == Format(Envelope(purpose, keyId, token))
                    && keyId in ring.keys && c.unseal(ring.keys[keyId], token) == Some(text))
  {
    var s := Strip(stored);
    if Parse(s).Some? {
      FormatParse(s);
      var e := Parse(s).value;
      assert e == Envelope(e.purpose, e.keyId, e.token);
    }
    forall keyId, token | Colonless(purpose) && Colonless(keyId) && token != ""
      && s == Format(Envelope(purpose, keyId, token))
      ensures Parse(s) == Some(Envelope(purpose, keyId, token))
    {
      ParseFormat(Envelope(purpose, keyId, token));
    }
  }

  /** The i-th secret opens the token, and none before it does. */
  ghost predicate FirstToOpen(c: Cipher, secrets: seq<Secret>, token: string, i: nat, text: string) {
    && i < |secrets| && c.unseal(secrets[i], token) == Some(text)
    && forall j :: 0 <= j < i ==> c.unseal(secrets[j], token) == None
  }

  lemma {:induction false} FirstUnsealIff(c: Cipher, secrets: seq<Secret>, token: string, text: string)
    ensures FirstUnseal(c, secrets, token) == Some(text) <==> exists i: nat :: FirstToOpen(c, secrets, token, i, text)
  {
    if secrets != [] {
      var rest := secrets[1..];
      FirstUnsealIff(c, rest, token, text);
      if c.unseal(secrets[0], token) == Some(text) {
        assert FirstToOpen(c, secrets, token, 0, text);
      }
      if i: nat :| FirstToOpen(c, rest, token, i, text) && c.unseal(secrets[0], token) == None {
        forall j | 0 <= j < i + 1 ensures c.unseal(secrets[j], token) == None {
          assert j > 0 ==> secrets[j] == rest[j - 1];
        }
        assert FirstToOpen(c, secrets, token, i + 1, text);
      }
      if i: nat :| FirstToOpen(c, secrets, token, i, text) && i > 0 {
        assert forall j :: 0 <= j < i - 1 ==> rest[j] == secrets[j + 1];
        assert FirstToOpen(c, rest, token, i - 1, text);
      }
    }
  }

  ghost predicate NoEnvelope(s: string) {
    forall e: Envelope :: Colonless(e.purpose) && Colonless(e.keyId) && e.token != "" ==> s != Format(e)
  }

  /** The text a legacy blob gives: it is no envelope, and the first legacy key that opens it gives the text. */
  lemma DecryptLegacyIff(c: Cipher, ring: Keyring, stored: string, text: string)
    ensures DecryptLegacy(c, ring, stored) == Some(text)
       <==> (if Strip(stored) == "" then text == ""
             else NoEnvelope(Strip(stored))
                  && exists i: nat :: FirstToOpen(c, ring.legacy, Strip(stored), i, text))
  {
    var s := Strip(stored);
    FirstUnsealIff(c, ring.legacy, s, text);
    if Parse(s).Some? {
      FormatParse(s);
      assert !NoEnvelope(s);
    }
    forall e: Envelope | Colonless(e.purpose) && Colonless(e.keyId) && e.token != "" && s == Format(e)
      ensures Parse(s).Some?
    {
      ParseFormat(e);
    }
  }

  /** Encryption round-trips, names the active key, binds the purpose, and its output is one line. */
  lemma EncryptRoundTrip(c: Cipher, ring: Keyring, text: string, purpose: string, nonce: nat, other: string)
    requires Sound(c) && RingOk(c, ring) && Encrypt(c, ring, text, purpose, nonce).Some?
    ensures var blob := Encrypt(c, ring, text, purpose, nonce).value;
      && Classify(blob) == (EnvelopeBlob, purpose, c.fingerprint(ring.active.value))
      && TargetKeyId(blob) == c.fingerprint(ring.active.value)
      && Decrypt(c, ring, blob, purpose) == Some(text)
      && (other != purpose ==> Decrypt(c, ring, blob, other) == None)
      && DecryptLegacy(c, ring, blob) == None
  {
    var key := ring.active.value;
    var e := Envelope(purpose, c.fingerprint(key), c.seal(key, text, nonce));
    assert Colonless(BROKER) && Colonless(MFA);
    ParseFormat(e);
    assert Format(e)[0] == 'v' && Format(e)[|Format(e)| - 1] == e.token[|e.token| - 1];
    StripTrimmed(Format(e));
  }

  // ---------------------------------------------------------------- details of the text

  /** White space is the blank, the five control characters from tab to carriage return, and the four separators. */
  lemma SpacesAre(c: char)
    ensures IsSpace(c) <==> c as int in {9, 10, 11, 12, 13, 28, 29, 30, 31, 32}
  {
  }

  function CountColons(s: string): nat {
    if s == "" then 0 else CountColons(s[..|s| - 1]) + if s[|s| - 1] == ':' then 1 else 0
  }

  lemma {:induction false} ColonsConcat(a: string, b: string)
    ensures CountColons(a + b) == CountColons(a) + CountColons(b)
  {
    if b == "" {
      assert a + b == a;
    } else {
      assert (a + b)[..|a + b| - 1] == a + b[..|b| - 1];
      ColonsConcat(a, b[..|b| - 1]);
    }
  }

  lemma {:induction false} NoColons(s: string)
    requires ':' !in s
    ensures CountColons(s) == 0
  {
    if s != "" {
      assert s[|s| - 1] in s;
      NoColons(s[..|s| - 1]);
    }
  }

  /** Cutting takes the first colon, if there is one. */
  lemma {:induction false} CutTakesOneColon(s: string)
    ensures Cut(s).Some? ==> CountColons(s) == CountColons(Cut(s).value.1) + 1
    ensures Cut(s).None? ==> CountColons(s) == 0
  {
    if Cut(s).Some? {
      var (a, b) := Cut(s).value;
      CutIsASplit(s);
      NoColons(a);
      ColonsConcat(a + ":", b);
      ColonsConcat(a, ":");
      assert ":"[..0] == "" && CountColons(":") == 1;
    } else {
      CutNoneHasNone(s);
      NoColons(s);
    }
  }

  lemma {:induction false} CutNoneHasNone(s: string)
    requires Cut(s).None?
    ensures ':' !in s
  {
    if s != "" {
      CutNoneHasNone(s[1..]);
      assert s == [s[0]] + s[1..];
    }
  }

  /** The key id that is logged for a new blob is a question mark when it has fewer than three colons. */
  lemma TooFewColons(blob: string)
    requires CountColons(blob) < 3
    ensures TargetKeyId(blob) == "?"
  {
    CutTakesOneColon(blob);
    if Cut(blob).Some? {
      var r1 := Cut(blob).value.1;
      CutTakesOneColon(r1);
      if Cut(r1).Some? {
        CutTakesOneColon(Cut(r1).value.1);
      }
    }
  }

  /** And its third field otherwise. */
  lemma ThirdField(a: string, b: string, c: string, rest: string)
    requires ':' !in a && ':' !in b && ':' !in c
    ensures TargetKeyId(a + ":" + (b + ":" + (c + ":" + rest))) == c
  {
    CutAtFirstColon(a, b + ":" + (c + ":" + rest));
    CutAtFirstColon(b, c + ":" + rest);
    CutAtFirstColon(c, rest);
  }
}
