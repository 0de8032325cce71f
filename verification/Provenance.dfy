/** HMAC attestation of evidence files: provenance.py over an opaque hash, MAC and serializer. */
module Provenance {
  import opened Orders
  import opened JsonDoc

  const SCHEMA := "odoo-ai-evidence/v1"

  type Bytes = string

  /** SHA-256, HMAC-SHA256 (section 2 of RFC 2104), canonical JSON and what `int(s, 16)` reads (signs, a prefix,
      underscores and other scripts' digits included), none of which is modelled. */
  datatype Crypto = Crypto(
    sha256: Bytes -> string,
    hmac: (Bytes, Bytes) -> string,
    canonical: map<string, Json> -> Bytes,
    readsAsHex: string -> bool)

  predicate IsHex(c: Crypto, s: string) {
    s != "" && c.readsAsHex(s)
  }

  predicate IsSha256(c: Crypto, j: Json) {
    j.Str? && |j.s| == 71 && j.s[..7] == "sha256:" && IsHex(c, j.s[7..])
  }

  predicate Ascii(s: string) {
    forall i :: 0 <= i < |s| ==> s[i] as int < 128
  }

  function Sha256Hex(c: Crypto, data: Bytes): string {
    "sha256:" + c.sha256(data)
  }

  function Unsigned(envelope: map<string, Json>): map<string, Json> {
    envelope - {"signature"}
  }

  function SignEnvelope(c: Crypto, envelope: map<string, Json>, key: Bytes): map<string, Json> {
    Unsigned(envelope)["signature" := Str(c.hmac(key, c.canonical(Unsigned(envelope))))]
  }

  datatype Reason = NotAnObject | SchemaMismatch | SignatureNotHex | ArtifactHashMalformed | NoKey | MacMismatch

  /** What is wrong with an envelope, problem by problem; without a key the signature cannot be recomputed. */
  predicate HasProblem(c: Crypto, envelope: Json, key: Option<Bytes>, r: Reason) {
    if !envelope.Obj? then r == NotAnObject
    else
      match r
      case NotAnObject => false
      case SchemaMismatch => Get(envelope, "schema") != Str(SCHEMA)
      case SignatureNotHex => !SignedInHex(c, envelope)
      case ArtifactHashMalformed => !IsSha256(c, Get(Get(envelope, "artifact"), "sha256"))
      case NoKey => key.None?
      case MacMismatch => key.Some? && SignedInHex(c, envelope) && !MacMatches(c, envelope, key.value)
  }

  predicate SignedInHex(c: Crypto, envelope: Json) {
    Get(envelope, "signature").Str? && IsHex(c, Get(envelope, "signature").s)
  }

  predicate MacMatches(c: Crypto, envelope: Json, key: Bytes)
    requires envelope.Obj?
  {
    Get(envelope, "signature") == Str(c.hmac(key, c.canonical(Unsigned(envelope.fields))))
  }

  /** Comparing digests in constant time refuses text outside ASCII, and nothing catches that. */
  predicate Raises(c: Crypto, envelope: Json, key: Option<Bytes>) {
    key.Some? && envelope.Obj? && SignedInHex(c, envelope) && !Ascii(Get(envelope, "signature").s)
  }

  /** It raises on such a signature only; otherwise it lists exactly the problems there are, in the order they are
      checked, and no reasons means accepted. */
  method VerifyEnvelope(c: Crypto, envelope: Json, key: Option<Bytes>) returns (raised: bool, reasons: seq<Reason>)
    ensures raised <==> Raises(c, envelope, key)
    ensures !raised ==> forall r :: r in reasons <==> HasProblem(c, envelope, key, r)
    ensures !raised ==> (reasons == [] <==> key.Some? && Verified(c, envelope, key.value))
  {
    if !envelope.Obj? {
      return false, [NotAnObject];
    }
    raised, reasons := false, [];
    if Get(envelope, "schema") != Str(SCHEMA) {
      reasons := reasons + [SchemaMismatch];
    }
    var sigIsHex := SignedInHex(c, envelope);
    if !sigIsHex {
      reasons := reasons + [SignatureNotHex];
    }
    if !IsSha256(c, Get(Get(envelope, "artifact"), "sha256")) {
      reasons := reasons + [ArtifactHashMalformed];
    }
    if key.None? {
      reasons := reasons + [NoKey];
    } else if sigIsHex {
      var sig := Get(envelope, "signature").s;
      if !Ascii(sig) {
        return true, [];
      }
      if c.hmac(key.value, c.canonical(Unsigned(envelope.fields))) != sig {
        reasons := reasons + [MacMismatch];
      }
    }
  }

  /** The envelope has the right shape and carries the MAC of its own unsigned content. */
  predicate Verified(c: Crypto, envelope: Json, key: Bytes) {
    && envelope.Obj?
    && Get(envelope, "schema") == Str(SCHEMA)
    && IsSha256(c, Get(Get(envelope, "artifact"), "sha256"))
    && Get(envelope, "signature") == Str(c.hmac(key, c.canonical(Unsigned(envelope.fields))))
    && IsHex(c, Get(envelope, "signature").s) && Ascii(Get(envelope, "signature").s)
  }

  /** `sha256:` and 64 hex digits. */
  ghost predicate HashesOf(c: Crypto, j: Json) {
    exists hex :: c.readsAsHex(hex) && |hex| == 64 && j == Str("sha256:" + hex)
  }

  lemma Sha256Iff(c: Crypto, j: Json)
    ensures IsSha256(c, j) <==> HashesOf(c, j)
  {
    if IsSha256(c, j) {
      var hex := j.s[7..];
      assert j.s == "sha256:" + hex && c.readsAsHex(hex) && |hex| == 64;
    }
    if hex :| c.readsAsHex(hex) && |hex| == 64 && j == Str("sha256:" + hex) {
      assert j.s[..7] == "sha256:" && j.s[7..] == hex;
    }
  }

  /** An object without its signature. */
  function ContentOf(fields: map<string, Json>): map<string, Json> {
    map k | k in fields && k != "signature" :: fields[k]
  }

  /** Which problems an envelope has, told from its fields. */
  lemma ProblemsAre(c: Crypto, fields: map<string, Json>, key: Option<Bytes>)
    ensures var e := Obj(fields);
            var sig := if "signature" in fields && fields["signature"].Str? then fields["signature"].s else "";
            var signed := sig != "" && c.readsAsHex(sig);
            && !HasProblem(c, e, key, NotAnObject)
            && (HasProblem(c, e, key, SchemaMismatch) <==>
                "schema" !in fields || fields["schema"] != Str("odoo-ai-evidence/v1"))
            && (HasProblem(c, e, key, SignatureNotHex) <==> !signed)
            && (HasProblem(c, e, key, ArtifactHashMalformed) <==> !HashesOf(c, Get(Get(e, "artifact"), "sha256")))
            && (HasProblem(c, e, key, NoKey) <==> key == None)
            && (HasProblem(c, e, key, MacMismatch) <==>
                key.Some? && signed && sig != c.hmac(key.value, c.canonical(ContentOf(fields))))
            && (Raises(c, e, key) <==> key.Some? && signed && exists i :: 0 <= i < |sig| && sig[i] as int > 127)
  {
    Sha256Iff(c, Get(Get(Obj(fields), "artifact"), "sha256"));
    assert Unsigned(fields) == ContentOf(fields);
  }

  /** An envelope is accepted exactly when it has none of these problems and nothing raises. */
  lemma VerifiedIffSound(c: Crypto, envelope: Json, key: Bytes)
    ensures Verified(c, envelope, key) <==>
              envelope.Obj? && !Raises(c, envelope, Some(key)) && forall r :: !HasProblem(c, envelope, Some(key), r)
    ensures Verified(c, envelope, key) ==>
              && Get(envelope, "schema") == Str("odoo-ai-evidence/v1")
              && HashesOf(c, Get(Get(envelope, "artifact"), "sha256"))
              && Get(envelope, "signature") == Str(c.hmac(key, c.canonical(ContentOf(envelope.fields))))
  {
    Sha256Iff(c, Get(Get(envelope, "artifact"), "sha256"));
    if envelope.Obj? {
      assert Unsigned(envelope.fields) == ContentOf(envelope.fields);
      if !Raises(c, envelope, Some(key)) && forall r :: !HasProblem(c, envelope, Some(key), r) {
        assert !HasProblem(c, envelope, Some(key), SchemaMismatch);
        assert !HasProblem(c, envelope, Some(key), SignatureNotHex);
        assert !HasProblem(c, envelope, Some(key), ArtifactHashMalformed);
        assert !HasProblem(c, envelope, Some(key), MacMismatch);
      }
    }
  }

  function Attest(c: Crypto, name: string, data: Bytes, subject: Json, producer: Json, environment: Json,
                  command: Json, key: Bytes): map<string, Json>
  {
    SignEnvelope(c, map[
      "schema" := Str(SCHEMA),
      "artifact_name" := Str(name),
      "subject" := subject,
      "producer" := producer,
      "environment" := environment,
      "command" := command,
      "artifact" := Obj(map["path" := Str(name), "sha256" := Str(Sha256Hex(c, data))])
    ], key)
  }

  /** Digests are ASCII hex, hashes of the right length. */
  ghost predicate ProducesHex(c: Crypto) {
    && (forall data :: |c.sha256(data)| == 64 && IsHex(c, c.sha256(data)))
    && (forall key, data :: IsHex(c, c.hmac(key, data)) && Ascii(c.hmac(key, data)))
  }

  /** What is attested verifies under the same key, and names and hashes what was attested. */
  lemma AttestedVerifies(c: Crypto, name: string, data: Bytes, subject: Json, producer: Json, environment: Json,
                         command: Json, key: Bytes)
    requires ProducesHex(c)
    ensures var env := Obj(Attest(c, name, data, subject, producer, environment, command, key));
            && Verified(c, env, key)
            && Get(env, "artifact_name") == Str(name) && Get(env, "subject") == subject
            && Get(env, "producer") == producer && Get(env, "environment") == environment
            && Get(env, "command") == command && Get(Get(env, "artifact"), "path") == Str(name)
            && Get(Get(env, "artifact"), "sha256") == Str("sha256:" + c.sha256(data))
  {
    AttestedFields(c, name, data, subject, producer, environment, command, key);
    AttestedIsSound(c, name, data, subject, producer, environment, command, key);
  }

  lemma AttestedFields(c: Crypto, name: string, data: Bytes, subject: Json, producer: Json, environment: Json,
                       command: Json, key: Bytes)
    ensures var env := Obj(Attest(c, name, data, subject, producer, environment, command, key));
            && Get(env, "artifact_name") == Str(name) && Get(env, "subject") == subject
            && Get(env, "producer") == producer && Get(env, "environment") == environment
            && Get(env, "command") == command && Get(Get(env, "artifact"), "path") == Str(name)
            && Get(Get(env, "artifact"), "sha256") == Str("sha256:" + c.sha256(data))
  {
  }

  lemma AttestedIsSound(c: Crypto, name: string, data: Bytes, subject: Json, producer: Json, environment: Json,
                        command: Json, key: Bytes)
    requires ProducesHex(c)
    ensures Verified(c, Obj(Attest(c, name, data, subject, producer, environment, command, key)), key)
  {
    var e := Attest(c, name, data, subject, producer, environment, command, key);
    var hash := Sha256Hex(c, data);
    assert hash[..7] == "sha256:" && hash[7..] == c.sha256(data);
    var m := e - {"signature"};
    assert Unsigned(m) == m && e == m["signature" := e["signature"]];
    SignedContent(c, map[
      "schema" := Str(SCHEMA), "artifact_name" := Str(name), "subject" := subject, "producer" := producer,
      "environment" := environment, "command" := command,
      "artifact" := Obj(map["path" := Str(name), "sha256" := Str(hash)])], key);
  }

  lemma SignedContent(c: Crypto, m: map<string, Json>, key: Bytes)
    ensures Unsigned(SignEnvelope(c, m, key)) == Unsigned(m)
  { }

  /** An envelope altered under an accepted one's signature is accepted exactly when its shape is sound and its content
      collides with the signed one under the MAC; without a collision every change is rejected. */
  lemma TamperingIsRejected(c: Crypto, a: Json, b: Json, key: Bytes)
    requires Verified(c, a, key) && b.Obj? && Get(b, "signature") == Get(a, "signature")
    ensures var collides := c.hmac(key, c.canonical(Unsigned(a.fields))) ==
      c.hmac(key, c.canonical(Unsigned(b.fields)));
            && (Verified(c, b, key) <==>
                collides && Get(b, "schema") == Str(SCHEMA) && IsSha256(c, Get(Get(b, "artifact"), "sha256")))
            && (a != b && (collides ==> Unsigned(a.fields) == Unsigned(b.fields)) ==> !Verified(c, b, key))
  {
    var sig := Get(a, "signature");
    assert Unsigned(a.fields)["signature" := sig] == a.fields;
    assert Has(b, "signature") ==> Unsigned(b.fields)["signature" := sig] == b.fields;
  }
}
