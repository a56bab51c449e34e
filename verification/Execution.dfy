/** What a finished command answers: inline text, or tails and links to the captured files
    (execute, capturedChars, tailFile and requestTimeout in internal/agent/executor.go). */
module Execution {
  import opened Wrappers
  import opened Numerals
  import opened Links
  import opened Artifacts
  import opened Capture

  const TAIL_RUNES: nat := 4_000

  /** UTF-8: the runes of a text and the text of runes. */
  datatype Text = Text(decode: seq<byte> -> seq<nat>, encode: seq<nat> -> seq<byte>) {
    /** Runes that were decoded survive encoding. */
    ghost predicate Faithful() {
      decode([]) == [] && forall data: seq<byte>, from: nat :: from <= |decode(data)| ==> Survives(data, from)
    }

    ghost predicate Survives(data: seq<byte>, from: nat)
      requires from <= |decode(data)|
    {
      decode(encode(decode(data)[from..])) == decode(data)[from..]
    }
  }

  /** Which of the reads of the capture files succeed. */
  datatype Reads = Reads(counts: bool, texts: bool, outTail: bool, errTail: bool)

  datatype Config = Config(text: Text, mac: string -> seq<byte>, baseUrl: string, inlineRunes: nat)

  datatype Routed = Routed(stdout: seq<byte>, stderr: seq<byte>, truncated: bool, attachments: seq<string>)

  datatype Failure = Unreadable

  // ---------------------------------------------------------------------
  // Exit code and time limit
  // ---------------------------------------------------------------------

  /** exited is the status of the process, -1 after a signal; a failed copy shows only when it is 0. */
  function ExitCode(exited: int, copyFailed: bool): int {
    if exited != 0 then exited else if copyFailed then -1 else 0
  }

  function RequestTimeout(requested: int, maximum: int): int {
    if requested <= 0 then maximum
    else
      var d := Wrap64(requested * SECOND);
      if d > maximum then maximum else d
  }

  /** The time limit is positive exactly when the 64 bits of the product do not read as zero or a negative number. */
  lemma TimeoutInRange(requested: int, maximum: int)
    requires 0 < maximum
    ensures RequestTimeout(requested, maximum) <= maximum
    ensures 0 < RequestTimeout(requested, maximum) <==> requested <= 0 || 0 < Bits64(requested * SECOND) < TWO_63
    ensures requested <= 0 ==> RequestTimeout(requested, maximum) == maximum
    ensures 0 < requested <= 9_223_372_036 ==>
              RequestTimeout(requested, maximum) == if requested * SECOND < maximum then requested * SECOND else maximum
  {
    WrapOfBits(requested * SECOND);
  }

  /** One second more and the request has no time at all. */
  lemma TimeoutWraps(maximum: int)
    requires 0 < maximum
    ensures RequestTimeout(9_223_372_037, maximum) < 0
  {
  }

  // ---------------------------------------------------------------------
  // Texts
  // ---------------------------------------------------------------------

  function Runes(text: Text, data: seq<byte>): nat {
    |text.decode(data)|
  }

  function Last(runes: seq<nat>, n: nat): seq<nat> {
    if |runes| > n then runes[|runes| - n..] else runes
  }

  function Tail(text: Text, data: seq<byte>, n: nat): seq<byte> {
    text.encode(Last(text.decode(data), n))
  }

  /** A tail shows exactly the last runes of the text. */
  lemma TailShowsEnd(text: Text, data: seq<byte>, n: nat)
    requires text.Faithful()
    ensures text.decode(Tail(text, data, n)) == Last(text.decode(data), n)
  {
    var runes := text.decode(data);
    if |runes| > n {
      assert text.Survives(data, |runes| - n);
    } else {
      assert text.Survives(data, 0);
      assert runes[0..] == runes;
    }
  }

  // ---------------------------------------------------------------------
  // Routing
  // ---------------------------------------------------------------------

  /** A captured stream: what its file holds, and the expiry of its link if it gets one. */
  datatype Captured = Captured(id: string, stream: string, kept: Kept, expires: int) {
    predicate Valid() {
      IsId(id) && IsStream(stream)
    }

    function Name(): string {
      NameOf(id, stream)
    }

    function Published(): Artifact {
      Artifact(id, Name(), |kept.content|, expires)
    }
  }

  predicate FitsInline(c: Config, out: Kept, err: Kept) {
    Runes(c.text, out.content) + Runes(c.text, err.content) <= c.inlineRunes && !out.truncated && !err.truncated
  }

  /** What one attached stream leaves in the store. */
  function AfterAttach(s: Store, x: Captured): Store {
    if x.kept.content == [] then Discarded(s, x.Name()) else Published(s, x.Published())
  }

  function UrlsOf(c: Config, x: Captured): seq<string>
    requires x.Valid()
  {
    NameIsClean(x.id, x.stream);
    if x.kept.content == [] then [] else [c.baseUrl + LinkOf(c.mac, x.Published())]
  }

  function TailOf(c: Config, x: Captured, readable: bool): seq<byte> {
    if x.kept.content != [] && readable then Tail(c.text, x.kept.content, TAIL_RUNES) else []
  }

  function Routing(c: Config, s: Store, out: Captured, err: Captured, disk: Reads): (Result<Routed, Failure>, Store)
    requires out.Valid() && err.Valid()
  {
    if !disk.counts then (Err(Unreadable), s)
    else if FitsInline(c, out.kept, err.kept) then
      (if disk.texts then Ok(Routed(out.kept.content, err.kept.content, false, [])) else Err(Unreadable),
       Discarded(Discarded(s, out.Name()), err.Name()))
    else
      (Ok(Routed(TailOf(c, out, disk.outTail), TailOf(c, err, disk.errTail),
                 out.kept.truncated || err.kept.truncated, UrlsOf(c, out) + UrlsOf(c, err))),
       AfterAttach(AfterAttach(s, out), err))
  }

  /** The store has the capture's file. */
  ghost predicate Holds(store: ArtifactStore, capture: CappedFile, x: Captured)
    reads store, capture
  {
    x.Valid() && capture.Valid() && x.kept == capture.State() &&
    x.Name() in store.files && store.files[x.Name()] == capture.file
  }

  /** Attaches one stream that is not empty and drops the file of an empty one. */
  method Attach(c: Config, store: ArtifactStore, capture: CappedFile, id: string, stream: string, now: int,
                readable: bool) returns (tail: seq<byte>, urls: seq<string>)
    requires Holds(store, capture, Captured(id, stream, capture.State(), now + store.ttl))
    modifies store
    ensures var x := Captured(id, stream, capture.State(), now + store.ttl);
            && tail == TailOf(c, x, readable) && urls == UrlsOf(c, x)
            && store.State() == AfterAttach(old(store.State()), x)
  {
    var name := NameOf(id, stream);
    tail, urls := [], [];
    if capture.written > 0 {
      if readable {
        tail := Tail(c.text, store.files[name], TAIL_RUNES);
      }
      NameIsClean(id, stream);
      var a := store.Publish(id, name, capture.written, now);
      urls := [c.baseUrl + LinkOf(c.mac, a)];
    } else {
      store.Discard(name);
    }
  }

  /** The end of execute, once both captures are closed. */
  method Route(c: Config, store: ArtifactStore, out: CappedFile, outId: string, outNow: int,
               err: CappedFile, errId: string, errNow: int, disk: Reads) returns (r: Result<Routed, Failure>)
    requires Holds(store, out, Captured(outId, "stdout", out.State(), outNow + store.ttl))
    requires Holds(store, err, Captured(errId, "stderr", err.State(), errNow + store.ttl)) && outId != errId
    modifies store
    ensures (r, store.State()) ==
            Routing(c, old(store.State()), Captured(outId, "stdout", out.State(), outNow + store.ttl),
                    Captured(errId, "stderr", err.State(), errNow + store.ttl), disk)
  {
    var outName, errName := NameOf(outId, "stdout"), NameOf(errId, "stderr");
    var truncated := out.truncated || err.truncated;
    if !disk.counts {
      return Err(Unreadable);
    }
    var stdout, stderr := store.files[outName], store.files[errName];
    if Runes(c.text, stdout) + Runes(c.text, stderr) <= c.inlineRunes && !truncated {
      store.Discard(outName);
      store.Discard(errName);
      return if disk.texts then Ok(Routed(stdout, stderr, false, [])) else Err(Unreadable);
    }
    if outName == errName {
      NamesDiffer(outId, "stdout", errId, "stderr");
    }
    var outUrls, errUrls;
    stdout, outUrls := Attach(c, store, out, outId, "stdout", outNow, disk.outTail);
    stderr, errUrls := Attach(c, store, err, errId, "stderr", errNow, disk.errTail);
    r := Ok(Routed(stdout, stderr, truncated, outUrls + errUrls));
  }

  /** The last n runes are a suffix, of n runes or of all there are. */
  lemma LastIsSuffix(runes: seq<nat>, n: nat)
    ensures |Last(runes, n)| == (if |runes| < n then |runes| else n)
    ensures exists front :: front + Last(runes, n) == runes
  {
    var k := |runes| - |Last(runes, n)|;
    assert runes[..k] + Last(runes, n) == runes;
  }

  /** A failing exit status is passed on; without one, a copy that failed shows as -1. */
  lemma ExitCodeMeans(exited: int, copyFailed: bool)
    ensures exited != 0 ==> ExitCode(exited, copyFailed) == exited
    ensures exited == 0 ==> ExitCode(exited, copyFailed) == if copyFailed then -1 else 0
  {
  }

  /** When an answer fits inline, both capture files are gone afterwards, nothing else in the store changes, and the
      request fails exactly if one of them cannot be read back. Otherwise it fails exactly if the counting fails, and
      then the store stays as it was. */
  lemma InlineLeavesNoFiles(c: Config, s: Store, out: Captured, err: Captured, disk: Reads)
    requires out.Valid() && err.Valid()
    ensures var (r, s') := Routing(c, s, out, err, disk);
            if !disk.counts then r.Err? && s' == s
            else if FitsInline(c, out.kept, err.kept) then
              && (r.Err? <==> !disk.texts) && s'.items == s.items
              && (forall name :: name in s'.files <==> name in s.files && name != out.Name() && name != err.Name())
              && (forall name :: name in s'.files ==> s'.files[name] == s.files[name])
            else r.Ok?
  {
  }

  /** An answer fits inline exactly if nothing was dropped and its runes are within the limit. */
  lemma FitsInlineMeans(c: Config, out: Kept, err: Kept)
    ensures FitsInline(c, out, err) <==>
            !out.truncated && !err.truncated &&
            |c.text.decode(out.content)| + |c.text.decode(err.content)| <= c.inlineRunes
  {
  }

  // ---------------------------------------------------------------------
  // Main results
  // ---------------------------------------------------------------------

  /** A stream whose copying stopped at the first write that failed. */
  ghost predicate CapturedFrom(x: Captured, limit: int, chunks: seq<Chunk>, failed: bool) {
    && x.Valid() && Copied(chunks) && x.kept == After(limit, chunks, |chunks|)
    && if failed then |chunks| > 0 && NoFailure(limit, chunks, |chunks| - 1) && FailsAt(limit, chunks, |chunks| - 1)
       else NoFailure(limit, chunks, |chunks|)
  }

  /** The capture holds the first limit bytes of the stream and says whether there were more. */
  ghost predicate Reflects(k: Kept, limit: nat, stream: seq<byte>) {
    && (k.truncated <==> |stream| > limit)
    && (if k.truncated then k.content != [] else k.content == stream)
  }

  lemma WholeStream(x: Captured, limit: nat, chunks: seq<Chunk>)
    requires 0 < limit && CapturedFrom(x, limit, chunks, false)
    ensures Reflects(x.kept, limit, Stream(chunks, |chunks|))
  {
    TruncatedIffDropped(limit, chunks);
  }

  /** An answer is inline exactly if it has no link, unless there is nothing to link. */
  lemma LinksOrInline(c: Config, s: Store, out: Captured, err: Captured, disk: Reads)
    requires out.Valid() && err.Valid() && Routing(c, s, out, err, disk).0.Ok?
    ensures var r := Routing(c, s, out, err, disk).0.value;
            && (r.truncated <==> out.kept.truncated || err.kept.truncated)
            && (r.attachments == [] <==>
                  FitsInline(c, out.kept, err.kept) || (out.kept.content == [] && err.kept.content == []))
            && (FitsInline(c, out.kept, err.kept) ==> r.stdout == out.kept.content && r.stderr == err.kept.content)
  {
  }

  /** A write that failed lost bytes. */
  lemma BrokenStream(x: Captured, limit: nat, chunks: seq<Chunk>)
    requires CapturedFrom(x, limit, chunks, true)
    ensures |x.kept.content| < |Stream(chunks, |chunks|)|
  {
    var n := |chunks| - 1;
    KeepsFirstBytes(limit, chunks, n);
    assert |Offered(limit, After(limit, chunks, n), chunks[n])| <= |chunks[n].data|;
  }

  lemma WholeOrBroken(x: Captured, limit: nat, chunks: seq<Chunk>, failed: bool)
    requires 0 < limit && CapturedFrom(x, limit, chunks, failed)
    ensures failed ==> x.kept.content != Stream(chunks, |chunks|)
    ensures !failed ==> Reflects(x.kept, limit, Stream(chunks, |chunks|))
  {
    if failed {
      BrokenStream(x, limit, chunks);
    } else {
      WholeStream(x, limit, chunks);
    }
  }

  /** When no write to a capture failed, an answer is marked as truncated exactly if a stream was longer than the
      limit, and it carries no link exactly if both whole streams fit inline, and then it carries them. When a write
      failed, the exit code is not 0, but an answer that fits inline carries neither mark nor link, although it lacks
      bytes: an inline answer is complete exactly if no write failed. */
  lemma InlineIsComplete(c: Config, s: Store, limit: nat, out: Captured, err: Captured, disk: Reads,
                         outChunks: seq<Chunk>, errChunks: seq<Chunk>, exited: int, outFailed: bool, errFailed: bool)
    requires c.text.Faithful() && 0 < limit
    requires CapturedFrom(out, limit, outChunks, outFailed) && CapturedFrom(err, limit, errChunks, errFailed)
    requires Routing(c, s, out, err, disk).0.Ok?
    ensures ExitCode(exited, outFailed || errFailed) == 0 ==> !outFailed && !errFailed
    ensures var r := Routing(c, s, out, err, disk).0.value;
            var stdout, stderr := Stream(outChunks, |outChunks|), Stream(errChunks, |errChunks|);
            && (!outFailed && !errFailed ==>
                  && (r.truncated <==> |stdout| > limit || |stderr| > limit)
                  && (r.attachments == [] <==>
                        !r.truncated && Runes(c.text, stdout) + Runes(c.text, stderr) <= c.inlineRunes)
                  && (r.attachments == [] ==> r.stdout == stdout && r.stderr == stderr))
            && (FitsInline(c, out.kept, err.kept) ==>
                  && !r.truncated && r.attachments == []
                  && (r.stdout == stdout && r.stderr == stderr <==> !outFailed && !errFailed))
  {
    LinksOrInline(c, s, out, err, disk);
    WholeOrBroken(out, limit, outChunks, outFailed);
    WholeOrBroken(err, limit, errChunks, errFailed);
  }

  /** For instance: a command writes one byte to a full disk and exits with 1. */
  lemma FullDiskAnswersIncomplete(c: Config, s: Store, id: string, errId: string, disk: Reads, b: byte)
    requires c.text.Faithful() && IsId(id) && IsId(errId) && disk.counts && disk.texts
    ensures var chunks := [Chunk([b], 0)];
            var out := Captured(id, "stdout", After(1, chunks, 1), 0);
            var err := Captured(errId, "stderr", Kept([], false), 0);
            && CapturedFrom(out, 1, chunks, true) && ExitCode(1, true) == 1
            && Routing(c, s, out, err, disk).0 == Ok(Routed([], [], false, [])) && Stream(chunks, 1) == [b]
  {
    var chunks := [Chunk([b], 0)];
    assert After(1, chunks, 0) == Kept([], false) && Offered(1, After(1, chunks, 0), chunks[0]) == [b];
    assert After(1, chunks, 1) == Kept([], false);
    assert FailsAt(1, chunks, 0);
    assert Stream(chunks, 1) == Stream(chunks, 0) + [b];
  }

  /** The link of a stream leads to an item of the store with the kept bytes and their size. */
  ghost predicate Attached(c: Config, s: Store, x: Captured, url: string)
    requires x.Valid()
  {
    var a := x.Published();
    && x.id in s.items && s.items[x.id] == a
    && a.name in s.files && s.files[a.name] == x.kept.content
    && |url| >= |c.baseUrl| && url[..|c.baseUrl|] == c.baseUrl
    && Ask(DOWNLOAD, url[|c.baseUrl|..]) ==
       Some(Asked(a.id, a.name, Some(Unix(a.expires)), Some(c.mac(Message(a.id, a.name, Unix(a.expires))))))
  }

  lemma UrlReadsBack(c: Config, s: Store, x: Captured)
    requires x.Valid() && -TWO_63 <= Unix(x.expires) < TWO_63 && x.kept.content != []
    requires x.id in s.items && s.items[x.id] == x.Published()
    requires x.Name() in s.files && s.files[x.Name()] == x.kept.content
    ensures Attached(c, s, x, UrlsOf(c, x)[0])
  {
    var a := x.Published();
    NameIsClean(x.id, x.stream);
    DownloadLayout();
    LinkReadsBack(DOWNLOAD, a.id, a.name, Unix(a.expires), c.mac(Message(a.id, a.name, Unix(a.expires))));
    assert UrlsOf(c, x)[0][|c.baseUrl|..] == LinkOf(c.mac, a);
  }

  /** An answer that is not inline links every stream that is not empty, standard output first, and keeps no file
      of an empty one. */
  lemma AttachmentsAreTheStreams(c: Config, s: Store, out: Captured, err: Captured, disk: Reads)
    requires out.Valid() && err.Valid() && out.id != err.id
    requires -TWO_63 <= Unix(out.expires) < TWO_63 && -TWO_63 <= Unix(err.expires) < TWO_63
    requires out.Name() in s.files && s.files[out.Name()] == out.kept.content
    requires err.Name() in s.files && s.files[err.Name()] == err.kept.content
    requires disk.counts && !FitsInline(c, out.kept, err.kept)
    ensures var (r, s') := Routing(c, s, out, err, disk);
            && r.Ok?
            && var urls, n := r.value.attachments, if out.kept.content == [] then 0 else 1;
               && |urls| == n + (if err.kept.content == [] then 0 else 1)
               && (if out.kept.content == [] then out.Name() !in s'.files else Attached(c, s', out, urls[0]))
               && (if err.kept.content == [] then err.Name() !in s'.files else Attached(c, s', err, urls[n]))
  {
    if out.Name() == err.Name() {
      NamesDiffer(out.id, out.stream, err.id, err.stream);
    }
    var s' := Routing(c, s, out, err, disk).1;
    if out.kept.content != [] {
      UrlReadsBack(c, s', out);
    }
    if err.kept.content != [] {
      UrlReadsBack(c, s', err);
    }
  }

  /** Routing touches no other file and no other item. */
  lemma RoutingTouchesNothingElse(c: Config, s: Store, out: Captured, err: Captured, disk: Reads)
    requires out.Valid() && err.Valid()
    ensures var s' := Routing(c, s, out, err, disk).1;
            && (forall name :: name != out.Name() && name != err.Name() ==> (name in s'.files <==> name in s.files))
            && (forall name :: name != out.Name() && name != err.Name() && name in s.files ==>
                  s'.files[name] == s.files[name])
            && (forall id :: id != out.id && id != err.id ==> (id in s'.items <==> id in s.items))
            && (forall id :: id != out.id && id != err.id && id in s.items ==> s'.items[id] == s.items[id])
  {
  }

  /** No answer carries more text than the inline limit or two tails, and what it carries of an attached stream is
      the end of what was kept. */
  lemma TextIsBounded(c: Config, s: Store, out: Captured, err: Captured, disk: Reads)
    requires c.text.Faithful() && out.Valid() && err.Valid() && Routing(c, s, out, err, disk).0.Ok?
    ensures var r := Routing(c, s, out, err, disk).0.value;
            var stdout, stderr := c.text.decode(out.kept.content), c.text.decode(err.kept.content);
            && Runes(c.text, r.stdout) + Runes(c.text, r.stderr) <=
               (if c.inlineRunes < 8_000 then 8_000 else c.inlineRunes)
            && (!FitsInline(c, out.kept, err.kept) ==>
                  && c.text.decode(r.stdout) == (if disk.outTail then Last(stdout, 4_000) else [])
                  && c.text.decode(r.stderr) == (if disk.errTail then Last(stderr, 4_000) else []))
  {
    TailShowsEnd(c.text, out.kept.content, TAIL_RUNES);
    TailShowsEnd(c.text, err.kept.content, TAIL_RUNES);
  }
}
