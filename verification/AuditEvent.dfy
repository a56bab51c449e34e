/** Audit events, their encoding and their hash (internal/audit/audit.go). */
module AuditEvent {
  import opened Wrappers
  import opened Strings

  const SCHEMA := "mygpt.audit.v1"

  /** data stands for the JSON value of the event's free-form part. */
  datatype Event = Event(schema: string, timestamp: string, chainId: string, traceId: string, sequence: nat,
                         stage: string, outcome: string, data: string, previousHash: string, hash: string)

  /** encode is the JSON text of an event (None when it cannot be encoded), decode reads a line back,
      digest is the hexadecimal SHA-256 of a byte string. */
  datatype Codec = Codec(encode: Event -> Option<string>, decode: string -> Option<Event>, digest: string -> string) {
    /** What is read back is what was written, and JSON text has no raw control bytes. */
    ghost predicate Faithful() {
      forall e :: encode(e).Some? ==> decode(encode(e).value) == Some(e) && NulFree(encode(e).value)
    }

    /** No two byte strings have the same digest, and a digest is never empty. */
    ghost predicate CollisionFree() {
      && (forall x, y :: digest(x) == digest(y) ==> x == y)
      && (forall x :: digest(x) != "")
    }
  }

  /** The hash an event must carry: over its previous hash, a NUL and its encoding without the hash field. */
  function ExpectedHash(c: Codec, e: Event): Option<string> {
    var payload := c.encode(e.(hash := ""));
    if payload.None? then None else Some(c.digest(Join(e.previousHash, payload.value)))
  }

  ghost predicate HashOk(c: Codec, e: Event) {
    ExpectedHash(c, e) == Some(e.hash)
  }

  /** A collision-free digest makes the hash of an event determine the event, whatever its fields hold. */
  lemma HashDeterminesEvent(c: Codec, e: Event, f: Event)
    requires c.Faithful() && c.CollisionFree()
    requires HashOk(c, e) && HashOk(c, f) && e.hash == f.hash
    ensures e == f
  {
    var x, y := c.encode(e.(hash := "")).value, c.encode(f.(hash := "")).value;
    JoinInjective(e.previousHash, x, f.previousHash, y);
    assert c.decode(x) == Some(e.(hash := "")) && c.decode(y) == Some(f.(hash := ""));
    assert e == e.(hash := "").(hash := e.hash);
  }
}
