/** Output capture: a writer that keeps the first bytes of a stream (cappedFile in internal/agent/artifact.go). */
module Capture {
  import opened Numerals

  /** The bytes in the file and whether bytes were dropped. */
  datatype Kept = Kept(content: seq<byte>, truncated: bool)

  /** One write. The file accepts takes bytes of it at most, and a write of more than that fails. */
  datatype Chunk = Chunk(data: seq<byte>, takes: nat)

  /** The part of the chunk that is passed on to the file. */
  function Offered(limit: int, k: Kept, c: Chunk): seq<byte> {
    var room := limit - |k.content|;
    if room <= 0 then [] else if |c.data| > room then c.data[..room] else c.data
  }

  predicate Fails(limit: int, k: Kept, c: Chunk) {
    c.takes < |Offered(limit, k, c)|
  }

  function AfterWrite(limit: int, k: Kept, c: Chunk): Kept {
    var offered := Offered(limit, k, c);
    Kept(k.content + if Fails(limit, k, c) then offered[..c.takes] else offered,
         k.truncated || limit <= |k.content| || |k.content| + |c.data| > limit)
  }

  /** A write passes on what there is room for, keeps what the file takes of it, and notes whether anything was to be
      dropped or the capture was full already. */
  lemma WriteMeans(limit: int, k: Kept, c: Chunk)
    ensures var room := if |k.content| < limit then limit - |k.content| else 0;
            var offered := if |c.data| < room then |c.data| else room;
            var taken := if c.takes < offered then c.takes else offered;
            && (Fails(limit, k, c) <==> c.takes < offered)
            && AfterWrite(limit, k, c).content == k.content + c.data[..taken]
            && (AfterWrite(limit, k, c).truncated <==> k.truncated || room == 0 || |c.data| > room)
  {
    var offered := Offered(limit, k, c);
    assert offered == c.data[..|offered|];
    if Fails(limit, k, c) {
      assert offered[..c.takes] == c.data[..c.takes];
    }
  }

  class CappedFile {
    const limit: int
    var file: seq<byte>
    var written: nat
    var truncated: bool

    ghost predicate Valid()
      reads this
    {
      written == |file|
    }

    ghost function State(): Kept
      reads this
    {
      Kept(file, truncated)
    }

    constructor (limit: int)
      ensures Valid() && State() == Kept([], false) && this.limit == limit
    {
      this.limit := limit;
      file, written, truncated := [], 0, false;
    }

    /** Reports success for the whole of p unless the file itself fails. */
    method Write(p: seq<byte>, takes: nat) returns (n: nat, ok: bool)
      requires Valid()
      modifies this
      ensures Valid() && State() == AfterWrite(limit, old(State()), Chunk(p, takes))
      ensures ok == !Fails(limit, old(State()), Chunk(p, takes))
      ensures n == if ok then |p| else takes
    {
      var remaining := limit - written;
      if remaining <= 0 {
        truncated := true;
        return |p|, true;
      }
      var q := p;
      if |q| > remaining {
        q := q[..remaining];
        truncated := true;
      }
      n := if takes < |q| then takes else |q|;
      file, written := file + q[..n], written + n;
      if takes < |q| {
        return n, false;
      }
      return |p|, true;
    }
  }

  // ---------------------------------------------------------------------
  // A whole stream
  // ---------------------------------------------------------------------

  /** Everything the first n writes passed in. */
  function Stream(chunks: seq<Chunk>, n: nat): seq<byte>
    requires n <= |chunks|
  {
    if n == 0 then [] else Stream(chunks, n - 1) + chunks[n - 1].data
  }

  /** The capture after the first n writes. */
  function After(limit: int, chunks: seq<Chunk>, n: nat): Kept
    requires n <= |chunks|
  {
    if n == 0 then Kept([], false) else AfterWrite(limit, After(limit, chunks, n - 1), chunks[n - 1])
  }

  predicate FailsAt(limit: int, chunks: seq<Chunk>, i: nat)
    requires i < |chunks|
  {
    Fails(limit, After(limit, chunks, i), chunks[i])
  }

  predicate NoFailure(limit: int, chunks: seq<Chunk>, n: nat)
    requires n <= |chunks|
  {
    forall i :: 0 <= i < n ==> !FailsAt(limit, chunks, i)
  }

  function First(s: seq<byte>, limit: int): seq<byte> {
    if limit <= 0 then [] else if |s| <= limit then s else s[..limit]
  }

  /** A write of nothing to a capture that is already full. */
  predicate EmptyWhenFull(limit: int, chunks: seq<Chunk>, i: nat)
    requires i < |chunks|
  {
    chunks[i].data == [] && limit <= |Stream(chunks, i)|
  }

  lemma FirstOfMore(s: seq<byte>, more: seq<byte>, limit: int)
    ensures First(s + more, limit) ==
            if |s| >= limit then First(s, limit)
            else if |s| + |more| <= limit then s + more
            else s + more[..limit - |s|]
  {
  }

  /** Writes that do not fail leave exactly the first limit bytes of the stream. */
  lemma {:induction false} KeepsFirstBytes(limit: int, chunks: seq<Chunk>, n: nat)
    requires n <= |chunks| && NoFailure(limit, chunks, n)
    ensures After(limit, chunks, n).content == First(Stream(chunks, n), limit)
  {
    if n > 0 {
      KeepsFirstBytes(limit, chunks, n - 1);
      assert !FailsAt(limit, chunks, n - 1);
      FirstOfMore(Stream(chunks, n - 1), chunks[n - 1].data, limit);
    }
  }

  /** The capture is marked as truncated exactly if bytes were dropped, or if something wrote nothing to it when it
      was full. */
  lemma {:induction false} TruncatedExactly(limit: int, chunks: seq<Chunk>, n: nat)
    requires n <= |chunks| && NoFailure(limit, chunks, n)
    ensures After(limit, chunks, n).truncated <==>
            |Stream(chunks, n)| > (if limit < 0 then 0 else limit) ||
            exists i :: 0 <= i < n && EmptyWhenFull(limit, chunks, i)
  {
    if n > 0 {
      TruncatedExactly(limit, chunks, n - 1);
      KeepsFirstBytes(limit, chunks, n - 1);
      if chunks[n - 1].data == [] && limit <= |Stream(chunks, n - 1)| {
        assert EmptyWhenFull(limit, chunks, n - 1);
      }
    }
  }

  /** The copying goroutine only writes what it has read, so it never writes nothing. */
  predicate Copied(chunks: seq<Chunk>) {
    forall i :: 0 <= i < |chunks| ==> chunks[i].data != []
  }

  /** For a copied stream the mark says exactly whether bytes were dropped. */
  lemma TruncatedIffDropped(limit: int, chunks: seq<Chunk>)
    requires Copied(chunks) && NoFailure(limit, chunks, |chunks|)
    ensures var k, stream := After(limit, chunks, |chunks|), Stream(chunks, |chunks|);
            k.content == First(stream, limit) && (k.truncated <==> k.content != stream)
  {
    KeepsFirstBytes(limit, chunks, |chunks|);
    TruncatedExactly(limit, chunks, |chunks|);
  }

  /** Whatever the file does, a capture holds a prefix of the stream and never more than its limit. */
  lemma KeepsPrefix(limit: int, chunks: seq<Chunk>, n: nat)
    requires n <= |chunks| && (n > 0 ==> NoFailure(limit, chunks, n - 1))
    ensures After(limit, chunks, n).content <= Stream(chunks, n)
    ensures |After(limit, chunks, n).content| <= if limit < 0 then 0 else limit
  {
    if n > 0 {
      KeepsFirstBytes(limit, chunks, n - 1);
      WriteKeepsPrefix(limit, After(limit, chunks, n - 1), chunks[n - 1], Stream(chunks, n - 1));
    }
  }

  lemma WriteKeepsPrefix(limit: int, k: Kept, c: Chunk, s: seq<byte>)
    requires k.content == First(s, limit)
    ensures AfterWrite(limit, k, c).content <= s + c.data
    ensures |AfterWrite(limit, k, c).content| <= if limit < 0 then 0 else limit
  {
    if limit <= |k.content| {
      assert AfterWrite(limit, k, c).content == k.content <= s;
    } else {
      assert k.content == s;
      var offered := Offered(limit, k, c);
      assert offered <= c.data;
    }
  }

  /** A write of nothing marks a capture as truncated although all of the stream is there. */
  lemma EmptyWriteMarksTruncated(b: byte)
    ensures var chunks := [Chunk([b], 1), Chunk([], 0)];
            After(1, chunks, 2) == Kept(Stream(chunks, 2), true)
  {
    var chunks := [Chunk([b], 1), Chunk([], 0)];
    assert Stream(chunks, 2) == Stream(chunks, 1) + [] == [b];
    assert After(1, chunks, 1) == Kept([b], false) by {
      assert Offered(1, After(1, chunks, 0), chunks[0]) == [b];
    }
  }
}
