/** From the day files back to the log: reading after rotation and retention gives a suffix of what was written. */
module AuditDisk {
  import opened Wrappers
  import opened Strings
  import opened Days
  import opened AuditEvent
  import opened AuditVerify
  import opened AuditSink
  import opened AuditRetention
  import opened AuditRun

  // ---------------------------------------------------------------------
  // One rotation
  // ---------------------------------------------------------------------

  /** Retention removes only from the front: no file that stays, empty ones aside, is earlier than one that goes. This
      holds whenever all removals succeed. */
  ghost predicate Tidy(s: Sink, day: Day, io: Io) {
    RemovedFromFront(WithFile(s.files, day), Rotated(s, day, io).files)
  }

  lemma TidyWhenRemovalsSucceed(s: Sink, day: Day, io: Io)
    requires NoneAfter(s.files, day) && io.removeFails == {}
    ensures Tidy(s, day, io)
  {
    TotalOrder(day, day);
    RotatedFiles(s, day, io);
    RetentionFromFront(WithFile(s.files, day), day, io);
  }

  lemma RotatedFiles(s: Sink, day: Day, io: Io)
    ensures var files := Rotated(s, day, io).files;
            || files == s.files
            || files == WithFile(s.files, day)
            || files == Retained(WithFile(s.files, day), day, io)
  {
  }

  lemma SameIsSuffix<T>(a: seq<T>)
    ensures SuffixOf(a, a)
  {
  }

  lemma RotatedIsLeft(s: Sink, day: Day, io: Io)
    ensures LeftOf(Rotated(s, day, io).files, WithFile(s.files, day))
  {
    RotatedFiles(s, day, io);
  }

  /** A rotation keeps the end of the content if it is tidy, and only then if no line occurs twice. */
  lemma ContentRotated(s: Sink, day: Day, io: Io)
    ensures Tidy(s, day, io) ==> SuffixOf(Content(Rotated(s, day, io).files), Content(s.files))
    ensures AllDifferent(Content(s.files)) ==>
              (SuffixOf(Content(Rotated(s, day, io).files), Content(s.files)) <==> Tidy(s, day, io))
  {
    var files := WithFile(s.files, day);
    ContentWithFile(s.files, day);
    RotatedIsLeft(s, day, io);
    if Tidy(s, day, io) {
      FrontRemoved(files, Rotated(s, day, io).files);
    }
    if AllDifferent(Content(s.files)) {
      SuffixIffFromFront(files, Rotated(s, day, io).files);
    }
  }

  lemma RotatedNoneAfter(s: Sink, day: Day, io: Io)
    requires NoneAfter(s.files, day)
    ensures NoneAfter(Rotated(s, day, io).files, day)
  {
    TotalOrder(day, day);
    RotatedFiles(s, day, io);
  }

  // ---------------------------------------------------------------------
  // Runs
  // ---------------------------------------------------------------------

  ghost predicate TidyAct(s: State, a: Act) {
    a.Finish? ==> Tidy(s.sink, a.day, a.io)
  }

  ghost predicate TidyNext(c: Codec, s: State, s': State) {
    exists a :: Step(c, s, a, s') && TidyAct(s, a)
  }

  ghost predicate TidyNextAt(c: Codec, run: seq<State>, i: nat)
    requires i + 1 < |run|
  {
    TidyNext(c, run[i], run[i + 1])
  }

  /** A run in a directory that may already hold files of earlier processes and days. */
  ghost predicate IsTidyRun(c: Codec, chainId: string, run: seq<State>) {
    && |run| > 0 && Init(run[0], chainId) && NoneAfter(run[0].sink.files, run[0].today)
    && forall i :: 0 <= i < |run| - 1 ==> TidyNextAt(c, run, i)
  }

  ghost predicate Encodable(c: Codec, log: seq<Event>) {
    forall i :: 0 <= i < |log| ==> c.encode(log[i]).Some?
  }

  function LineOf(c: Codec, e: Event): string
    requires c.encode(e).Some?
  {
    c.encode(e).value
  }

  ghost function Lines(c: Codec, log: seq<Event>): (lines: seq<string>)
    requires Encodable(c, log)
    ensures |lines| == |log| && forall i :: 0 <= i < |log| ==> lines[i] == LineOf(c, log[i])
  {
    seq(|log|, i requires 0 <= i < |log| => LineOf(c, log[i]))
  }

  lemma LinesSnoc(c: Codec, log: seq<Event>, e: Event)
    requires Encodable(c, log) && c.encode(e).Some?
    ensures Encodable(c, log + [e]) && Lines(c, log + [e]) == Lines(c, log) + [LineOf(c, e)]
  {
  }

  /** The files hold a suffix of what they held at the start followed by what was written since. */
  ghost predicate DiskInv(c: Codec, base: seq<string>, s: State) {
    && Encodable(c, s.log)
    && NoneAfter(s.sink.files, s.today)
    && SuffixOf(Content(s.sink.files), base + Lines(c, s.log))
  }

  lemma NoneAfterLater(files: Files, day: Day, later: Day)
    requires NoneAfter(files, day) && !DayLess(later, day)
    ensures NoneAfter(files, later)
  {
    TotalOrder(day, later);
  }

  lemma DiskAfterFinish(c: Codec, base: seq<string>, s: State, t: nat, day: Day, io: Io, s': State)
    requires DiskInv(c, base, s) && SinkOk(s.sink) && StepFinish(c, s, t, day, io, s') && Tidy(s.sink, day, io)
    ensures DiskInv(c, base, s')
  {
    var e := s.traces[t].pending.value;
    var out, rotated := OutcomeOf(c, s.sink, e, day, io), Rotated(s.sink, day, io);
    NoneAfterLater(s.sink.files, s.today, day);
    ContentRotated(s.sink, day, io);
    RotatedNoneAfter(s.sink, day, io);
    SuffixTransitive(Content(rotated.files), Content(s.sink.files), base + Lines(c, s.log));
    if !out.Dropped? {
      RotatedHasDay(s.sink, day, io);
      DiskAfterWrite(c, base, s, rotated, Chained(c, rotated, e).value, day, s');
    }
  }

  lemma DiskAfterWrite(c: Codec, base: seq<string>, s: State, rotated: Sink, w: Event, day: Day, s': State)
    requires Encodable(c, s.log) && day in rotated.files && NoneAfter(rotated.files, day)
    requires SuffixOf(Content(rotated.files), base + Lines(c, s.log))
    requires c.encode(w).Some? && s'.log == s.log + [w] && s'.today == day
    requires s'.sink.files == rotated.files[day := rotated.files[day] + [LineOf(c, w)]]
    ensures DiskInv(c, base, s')
  {
    ContentAppended(rotated.files, day, LineOf(c, w));
    LinesSnoc(c, s.log, w);
    SuffixSnoc(Content(rotated.files), base + Lines(c, s.log), LineOf(c, w));
    AppendInner(base, Lines(c, s.log), LineOf(c, w));
  }

  lemma RotatedHasDay(s: Sink, day: Day, io: Io)
    requires SinkOk(s) && RotateOk(s, day, io) && Rotated(s, day, io).handle.Open?
    ensures day in Rotated(s, day, io).files
  {
  }

  lemma {:induction false} DiskInRun(c: Codec, chainId: string, run: seq<State>, i: nat)
    requires c.Faithful() && c.CollisionFree() && chainId != "" && IsTidyRun(c, chainId, run) && i < |run|
    ensures RunInv(c, chainId, run[i]) && DiskInv(c, Content(run[0].sink.files), run[i])
  {
    var base := Content(run[0].sink.files);
    if i == 0 {
      assert base + Lines(c, run[0].log) == base;
    } else {
      DiskInRun(c, chainId, run, i - 1);
      assert TidyNextAt(c, run, i - 1);
      var a :| Step(c, run[i - 1], a, run[i]) && TidyAct(run[i - 1], a);
      RunInvStep(c, chainId, run[i - 1], a, run[i]);
      if a.Finish? {
        DiskAfterFinish(c, base, run[i - 1], a.t, a.day, a.io, run[i]);
      }
    }
  }

  // ---------------------------------------------------------------------
  // Main results
  // ---------------------------------------------------------------------

  /** Files of the run are listed by name in date order, so that Read sees exactly the content above. */
  lemma ReadSeesContent(files: Files, names: seq<Day>)
    requires Listing(names, files.Keys) && forall d :: d in files ==> Named(d)
    ensures Concat(files, names) == Content(files)
  {
    ListingIsSorted(names, files.Keys);
  }

  /** A line written by the sink is readable exactly when it is short enough, and reads back as the event. */
  lemma LineReadsBack(c: Codec, e: Event)
    requires c.Faithful() && c.encode(e).Some?
    ensures Readable(c, LineOf(c, e)) <==> |LineOf(c, e)| < 2_097_152
    ensures Readable(c, LineOf(c, e)) ==> DecodedLine(c, LineOf(c, e)) == e
  {
  }

  /** Reading the files of a run gives a suffix of the older log followed by the run's own log. */
  lemma ReadGivesSuffix(c: Codec, chainId: string, run: seq<State>, i: nat)
    requires c.Faithful() && c.CollisionFree() && chainId != "" && IsTidyRun(c, chainId, run) && i < |run|
    requires AllReadable(c, Content(run[0].sink.files))
    requires forall k :: 0 <= k < |run[i].log| ==>
               c.encode(run[i].log[k]).Some? ==> |LineOf(c, run[i].log[k])| < MAX_LINE
    ensures AllReadable(c, Content(run[i].sink.files))
    ensures SuffixOf(Decoded(c, Content(run[i].sink.files)), Decoded(c, Content(run[0].sink.files)) + run[i].log)
  {
    DiskInRun(c, chainId, run, i);
    LinesReadBack(c, run[i].log);
    SuffixReadsBack(c, Content(run[0].sink.files), run[i].log, Content(run[i].sink.files));
  }

  lemma LinesReadBack(c: Codec, log: seq<Event>)
    requires c.Faithful() && Encodable(c, log)
    requires forall k :: 0 <= k < |log| ==> |LineOf(c, log[k])| < MAX_LINE
    ensures AllReadable(c, Lines(c, log)) && Decoded(c, Lines(c, log)) == log
  {
    forall k | 0 <= k < |log| ensures Readable(c, LineOf(c, log[k])) && DecodedLine(c, LineOf(c, log[k])) == log[k] {
      LineReadsBack(c, log[k]);
    }
  }

  lemma SuffixReadsBack(c: Codec, base: seq<string>, log: seq<Event>, now: seq<string>)
    requires Encodable(c, log) && AllReadable(c, base)
    requires AllReadable(c, Lines(c, log)) && Decoded(c, Lines(c, log)) == log
    requires SuffixOf(now, base + Lines(c, log))
    ensures AllReadable(c, now) && SuffixOf(Decoded(c, now), Decoded(c, base) + log)
  {
    var all := base + Lines(c, log);
    ReadableParts(c, base, Lines(c, log));
    assert Decoded(c, all) == Decoded(c, base) + Decoded(c, Lines(c, log));
    var at := |all| - |now|;
    forall k | 0 <= k < |now| ensures Readable(c, now[k]) && now[k] == all[at + k] {
    }
    assert Decoded(c, now) == Decoded(c, all)[at..];
  }

  lemma {:induction false} ProjectConcat(a: seq<Event>, b: seq<Event>, n: nat, chain: string)
    requires n <= |b|
    ensures ProjectTo(a + b, |a| + n, chain) == Project(a, chain) + ProjectTo(b, n, chain)
  {
    if n == 0 {
      ProjectSame(a, a + b, |a|, chain);
    } else {
      ProjectConcat(a, b, n - 1, chain);
    }
  }

  lemma {:induction false} ProjectForeign(log: seq<Event>, n: nat, own: string, chain: string)
    requires n <= |log| && forall i :: 0 <= i < n ==> log[i].chainId == own
    ensures ProjectTo(log, n, chain) == if chain == own then log[..n] else []
  {
    if n > 0 {
      ProjectForeign(log, n - 1, own, chain);
    }
  }

  lemma {:induction false} ProjectAbsent(log: seq<Event>, n: nat, chain: string)
    requires n <= |log| && forall i :: 0 <= i < n ==> log[i].chainId != chain
    ensures ProjectTo(log, n, chain) == []
  {
    if n > 0 {
      ProjectAbsent(log, n - 1, chain);
    }
  }

  /** An accepted older log stays accepted when a new chain is written after it. */
  lemma NewChainAccepted(c: Codec, older: seq<Event>, log: seq<Event>, own: string)
    requires ChainsNulFree(older) && NulFree(own) && Accepts(c, older) && Accepts(c, log)
    requires forall i :: 0 <= i < |log| ==> log[i].chainId == own
    requires forall i :: 0 <= i < |older| ==> older[i].chainId != own
    ensures Accepts(c, older + log)
  {
    var all := older + log;
    forall chain | chain in ChainsTo(all, |all|) ensures Accepts(c, Project(all, chain)) {
      ProjectConcat(older, log, |log|, chain);
      ProjectForeign(log, |log|, own, chain);
      if chain == own {
        ProjectAbsent(older, |older|, own);
        assert Project(all, chain) == log;
      } else {
        EachChainAccepted(c, older, |older|, chain);
        assert Project(all, chain) == Project(older, chain);
      }
    }
    AcceptsIffEachChain(c, all);
  }

  /** What the audit command answers for a directory: read all files in name order, then verify. */
  method VerifyDirectory(c: Codec, files: Files, names: seq<Day>) returns (result: Option<VerifyResult>)
    requires forall i :: 0 <= i < |names| ==> names[i] in files
    ensures DirectoryAnswers(c, files, names, result)
  {
    var events := Read(c, files, names);
    if events.None? {
      return None;
    }
    var r := Verify(c, events.value);
    result := Some(r);
  }

  ghost predicate DirectoryAnswers(c: Codec, files: Files, names: seq<Day>, result: Option<VerifyResult>) {
    && (result.Some? <==> AllReadable(c, Concat(files, names)))
    && (result.Some? ==> Answers(c, Decoded(c, Concat(files, names)), result.value))
  }

  /** End to end: after any run with a non-decreasing date and tidy rotations, the audit command reads the directory
      and answers that it is valid, if what was there before was valid and the run's own log is accepted. */
  lemma DirectoryVerifies(c: Codec, chainId: string, run: seq<State>, i: nat, names: seq<Day>,
                          result: Option<VerifyResult>)
    requires c.Faithful() && c.CollisionFree() && chainId != "" && NulFree(chainId)
    requires IsTidyRun(c, chainId, run) && i < |run|
    requires AllReadable(c, Content(run[0].sink.files))
    requires var before := Decoded(c, Content(run[0].sink.files));
             && Accepts(c, before) && ChainsNulFree(before)
             && forall k :: 0 <= k < |before| ==> before[k].chainId != chainId
    requires forall k :: 0 <= k < |run[i].log| ==>
               c.encode(run[i].log[k]).Some? ==> |LineOf(c, run[i].log[k])| < MAX_LINE
    requires Accepts(c, run[i].log)
    requires var files := run[i].sink.files;
             && Listing(names, files.Keys) && (forall d :: d in files ==> Named(d))
             && DirectoryAnswers(c, files, names, result)
    ensures result.Some? && result.value.valid && result.value.firstError == None
  {
    var files := run[i].sink.files;
    ContentVerifies(c, chainId, run, i);
    ReadSeesContent(files, names);
  }

  lemma ContentVerifies(c: Codec, chainId: string, run: seq<State>, i: nat)
    requires c.Faithful() && c.CollisionFree() && chainId != "" && NulFree(chainId)
    requires IsTidyRun(c, chainId, run) && i < |run|
    requires AllReadable(c, Content(run[0].sink.files))
    requires var before := Decoded(c, Content(run[0].sink.files));
             && Accepts(c, before) && ChainsNulFree(before)
             && forall k :: 0 <= k < |before| ==> before[k].chainId != chainId
    requires forall k :: 0 <= k < |run[i].log| ==>
               c.encode(run[i].log[k]).Some? ==> |LineOf(c, run[i].log[k])| < MAX_LINE
    requires Accepts(c, run[i].log)
    ensures AllReadable(c, Content(run[i].sink.files))
    ensures Accepts(c, Decoded(c, Content(run[i].sink.files)))
  {
    DiskInRun(c, chainId, run, i);
    ReadGivesSuffix(c, chainId, run, i);
    var before, log := Decoded(c, Content(run[0].sink.files)), run[i].log;
    forall k | 0 <= k < |log| ensures log[k].chainId == chainId {
      assert WrittenOk(c, run[i], k);
    }
    NewChainAccepted(c, before, log, chainId);
    SuffixAccepted(c, Decoded(c, Content(run[i].sink.files)), before + log);
  }

  lemma SuffixAccepted(c: Codec, now: seq<Event>, all: seq<Event>)
    requires SuffixOf(now, all) && Accepts(c, all)
    ensures Accepts(c, now)
  {
    SliceAccepted(c, all, |all| - |now|, |all|);
    assert now == all[|all| - |now|..|all|];
  }
}
