/** Concurrent traces over one sink, in every interleaving: exactly when the log they leave is accepted. */
module AuditRun {
  import opened Numerals
  import opened Wrappers
  import opened Strings
  import opened Days
  import opened AuditEvent
  import opened AuditVerify
  import opened AuditTamper
  import opened AuditSink

  /** A trace between calls, or inside one with its event numbered but not yet appended; call is what its latest
      call was given. outcomes is the history of its finished calls. */
  datatype TraceState = TraceState(id: string, sequence: nat, pending: Option<Event>, outcomes: seq<Outcome>,
                                   call: Passed)

  /** log holds every event written to disk in order; synced, owners and calls say how, by which trace and for which
      call each was written. count is the number of finished calls. */
  datatype State = State(sink: Sink, traces: map<nat, TraceState>, today: Day, count: nat,
                         log: seq<Event>, synced: seq<bool>, owners: seq<nat>, calls: seq<Passed>)

  datatype Act =
    | NewTrace(t: nat, id: string)
    | Begin(t: nat, timestamp: string, stage: string, outcome: string, data: string)
    | Finish(t: nat, day: Day, io: Io)
    | Shut

  ghost predicate Init(s: State, chainId: string) {
    && s.sink.chainId == chainId && s.sink.previousHash == ""
    && s.sink.currentDay == None && s.sink.handle == NoFile
    && s.traces == map[] && s.count == 0 && s.log == [] && s.synced == [] && s.owners == [] && s.calls == []
  }

  /** The call takes the trace's lock and the next number. */
  ghost predicate StepBegin(s: State, t: nat, timestamp: string, stage: string, outcome: string, data: string,
                            s': State) {
    && t in s.traces && s.traces[t].pending.None?
    && var trace := s.traces[t];
       var n := Next64(trace.sequence);
       var e := NewEvent(trace.id, n, timestamp, stage, outcome, data);
       s' == s.(traces := s.traces[t := trace.(sequence := n, pending := Some(e),
                                               call := Passed(timestamp, stage, outcome, data))])
  }

  /** The call takes the sink's lock, appends on some day not before the last one, and returns. */
  ghost predicate StepFinish(c: Codec, s: State, t: nat, day: Day, io: Io, s': State) {
    && t in s.traces && s.traces[t].pending.Some? && !DayLess(day, s.today)
    && var trace := s.traces[t];
       var e := trace.pending.value;
       var out := OutcomeOf(c, s.sink, e, day, io);
       var done := s.traces[t := trace.(pending := None, outcomes := trace.outcomes + [out])];
       var written := Chained(c, Rotated(s.sink, day, io), e);
       && s'.sink == Appended(c, s.sink, e, day, io) && s'.today == day && s'.count == s.count + 1 && s'.traces == done
       && if out.Dropped? || written.None? then
            s'.log == s.log && s'.synced == s.synced && s'.owners == s.owners && s'.calls == s.calls
          else
            && s'.log == s.log + [written.value] && s'.synced == s.synced + [out.Written?]
            && s'.owners == s.owners + [t] && s'.calls == s.calls + [trace.call]
  }

  ghost predicate Step(c: Codec, s: State, a: Act, s': State) {
    match a
    case NewTrace(t, id) =>
      && t !in s.traces && id != ""
      && s' == s.(traces := s.traces[t := TraceState(id, 0, None, [], Passed("", "", "", ""))])
    case Begin(t, timestamp, stage, outcome, data) => StepBegin(s, t, timestamp, stage, outcome, data, s')
    case Finish(t, day, io) => StepFinish(c, s, t, day, io, s')
    case Shut => s' == s.(sink := s.sink.(handle := NoFile))
  }

  ghost predicate Next(c: Codec, s: State, s': State) {
    exists a :: Step(c, s, a, s')
  }

  ghost predicate NextAt(c: Codec, run: seq<State>, i: nat)
    requires i + 1 < |run|
  {
    Next(c, run[i], run[i + 1])
  }

  ghost predicate IsRun(c: Codec, chainId: string, run: seq<State>) {
    && |run| > 0 && Init(run[0], chainId)
    && forall i :: 0 <= i < |run| - 1 ==> NextAt(c, run, i)
  }

  // ---------------------------------------------------------------------
  // Outcomes of one trace
  // ---------------------------------------------------------------------

  /** The last call that reached the disk, or -1. */
  function LastRecorded(h: seq<Outcome>): (i: int)
    ensures -1 <= i < |h|
    ensures i >= 0 ==> !h[i].Dropped?
    ensures forall k :: i < k < |h| ==> h[k].Dropped?
  {
    if h == [] then -1
    else if !h[|h| - 1].Dropped? then |h| - 1
    else LastRecorded(h[..|h| - 1])
  }

  /** A failed event strictly between two recorded ones. */
  ghost predicate HasGap(h: seq<Outcome>) {
    exists i, j, k :: 0 <= i < j < k < |h| && !h[i].Dropped? && h[j].Dropped? && !h[k].Dropped?
  }

  lemma GapSnoc(h: seq<Outcome>, o: Outcome)
    ensures HasGap(h + [o]) <==> HasGap(h) || (!o.Dropped? && 0 <= LastRecorded(h) < |h| - 1)
  {
    var longer, last := h + [o], LastRecorded(h);
    if HasGap(h) {
      var i, j, k :| 0 <= i < j < k < |h| && !h[i].Dropped? && h[j].Dropped? && !h[k].Dropped?;
      assert !longer[i].Dropped? && longer[j].Dropped? && !longer[k].Dropped?;
    }
    if !o.Dropped? && 0 <= last < |h| - 1 {
      assert !longer[last].Dropped? && longer[|h| - 1].Dropped? && !longer[|h|].Dropped?;
    }
    if HasGap(longer) {
      var i, j, k :| 0 <= i < j < k < |longer| && !longer[i].Dropped? && longer[j].Dropped? && !longer[k].Dropped?;
      if k < |h| || last == |h| - 1 {
        var k' := if k < |h| then k else last;
        assert !h[i].Dropped? && h[j].Dropped? && !h[k'].Dropped?;
      }
    }
  }

  lemma LastRecordedSnoc(h: seq<Outcome>, o: Outcome)
    ensures LastRecorded(h + [o]) == if o.Dropped? then LastRecorded(h) else |h|
  {
    assert (h + [o])[..|h|] == h;
  }

  // ---------------------------------------------------------------------
  // Structure of every reachable state
  // ---------------------------------------------------------------------

  /** The hash the sink would chain to after the first n writes: that of the last one that was also synced. */
  function Head(log: seq<Event>, synced: seq<bool>, n: nat): string
    requires n <= |log| == |synced|
  {
    if n == 0 then "" else if synced[n - 1] then log[n - 1].hash else Head(log, synced, n - 1)
  }

  ghost predicate PendingOk(trace: TraceState) {
    && trace.id != ""
    && (trace.pending.Some? ==>
          var e := trace.pending.value;
          HoldsCall(e, trace.id, trace.sequence, trace.call))
  }

  ghost predicate WrittenOk(c: Codec, s: State, i: nat)
    requires i < |s.log| == |s.synced| == |s.calls|
  {
    var e := s.log[i];
    && e.chainId == s.sink.chainId && e.traceId != "" && HashOk(c, e)
    && HoldsCall(e, e.traceId, e.sequence, s.calls[i])
    && e.previousHash == Head(s.log, s.synced, i)
  }

  ghost predicate Shape(c: Codec, s: State) {
    && |s.log| == |s.synced| == |s.owners| == |s.calls|
    && (forall t :: t in s.traces ==> PendingOk(s.traces[t]))
    && (forall i :: 0 <= i < |s.log| ==> WrittenOk(c, s, i))
    && s.sink.previousHash == Head(s.log, s.synced, |s.log|)
  }

  lemma {:induction false} HeadPrefix(log: seq<Event>, synced: seq<bool>, e: Event, b: bool, n: nat)
    requires n <= |log| == |synced|
    ensures Head(log + [e], synced + [b], n) == Head(log, synced, n)
  {
    if n > 0 {
      HeadPrefix(log, synced, e, b, n - 1);
    }
  }

  lemma ChainedFields(c: Codec, s: Sink, e: Event)
    requires Chained(c, s, e).Some?
    ensures var w := Chained(c, s, e).value;
            && w.schema == e.schema && w.traceId == e.traceId && w.sequence == e.sequence
            && w.timestamp == e.timestamp && w.stage == e.stage && w.outcome == e.outcome && w.data == e.data
            && w.chainId == s.chainId && w.previousHash == s.previousHash && HashOk(c, w)
  {
    var w, linked := Chained(c, s, e).value, e.(chainId := s.chainId, previousHash := s.previousHash, hash := "");
    assert w.(hash := "") == linked.(hash := "");
  }

  lemma RotatedFields(s: Sink, day: Day, io: Io)
    ensures Rotated(s, day, io).chainId == s.chainId && Rotated(s, day, io).previousHash == s.previousHash
  {
  }

  /** What a finished call does to the sink's identity and head. */
  lemma FinishSink(c: Codec, s: State, t: nat, day: Day, io: Io, s': State)
    requires SinkOk(s.sink) && StepFinish(c, s, t, day, io, s')
    ensures SinkOk(s'.sink) && s'.sink.chainId == s.sink.chainId
    ensures var out := OutcomeOf(c, s.sink, s.traces[t].pending.value, day, io);
            var w := Chained(c, Rotated(s.sink, day, io), s.traces[t].pending.value);
            && (out.Dropped? || w.Some?)
            && s'.sink.previousHash == if out.Written? && w.Some? then w.value.hash else s.sink.previousHash
  {
  }

  lemma ShapeAfterWrite(c: Codec, s: State, t: nat, day: Day, io: Io, s': State)
    requires Shape(c, s) && SinkOk(s.sink) && StepFinish(c, s, t, day, io, s')
    requires !OutcomeOf(c, s.sink, s.traces[t].pending.value, day, io).Dropped?
    ensures Shape(c, s')
  {
    var e := s.traces[t].pending.value;
    var rotated := Rotated(s.sink, day, io);
    FinishSink(c, s, t, day, io, s');
    RotatedFields(s.sink, day, io);
    ChainedFields(c, rotated, e);
    var w, b := Chained(c, rotated, e).value, OutcomeOf(c, s.sink, e, day, io).Written?;
    assert PendingOk(s.traces[t]);
    forall i | 0 <= i < |s'.log| ensures WrittenOk(c, s', i) {
      HeadPrefix(s.log, s.synced, w, b, i);
      if i < |s.log| {
        assert WrittenOk(c, s, i);
      }
    }
    HeadPrefix(s.log, s.synced, w, b, |s.log|);
  }

  lemma ShapeStep(c: Codec, s: State, a: Act, s': State)
    requires Shape(c, s) && SinkOk(s.sink) && Step(c, s, a, s')
    ensures Shape(c, s') && SinkOk(s'.sink)
  {
    match a
    case NewTrace(t, id) =>
      forall i | 0 <= i < |s'.log| ensures WrittenOk(c, s', i) { assert WrittenOk(c, s, i); }
    case Begin(t, timestamp, stage, outcome, data) =>
      assert PendingOk(s.traces[t]);
      forall i | 0 <= i < |s'.log| ensures WrittenOk(c, s', i) { assert WrittenOk(c, s, i); }
    case Finish(t, day, io) =>
      FinishSink(c, s, t, day, io, s');
      if OutcomeOf(c, s.sink, s.traces[t].pending.value, day, io).Dropped? {
        assert PendingOk(s.traces[t]);
        forall i | 0 <= i < |s'.log| ensures WrittenOk(c, s', i) { assert WrittenOk(c, s, i); }
      } else {
        ShapeAfterWrite(c, s, t, day, io, s');
      }
    case Shut =>
      forall i | 0 <= i < |s'.log| ensures WrittenOk(c, s', i) { assert WrittenOk(c, s, i); }
  }

  /** No written event carries the hash it links to: a self link would repeat down to the empty first link. */
  lemma {:induction false} NoSelfLink(c: Codec, s: State, i: nat)
    requires c.Faithful() && c.CollisionFree() && Shape(c, s) && i < |s.log|
    ensures s.log[i].hash != "" && s.log[i].hash != s.log[i].previousHash
  {
    assert WrittenOk(c, s, i);
    var m := HeadIndex(s.log, s.synced, i);
    if m >= 0 && s.log[i].hash == s.log[m].hash {
      assert WrittenOk(c, s, m);
      HashDeterminesEvent(c, s.log[i], s.log[m]);
      NoSelfLink(c, s, m);
    }
  }

  lemma {:induction false} HeadIndex(log: seq<Event>, synced: seq<bool>, n: nat) returns (m: int)
    requires n <= |log| == |synced|
    ensures -1 <= m < n
    ensures Head(log, synced, n) == if m == -1 then "" else log[m].hash
  {
    if n == 0 {
      m := -1;
    } else if synced[n - 1] {
      m := n - 1;
    } else {
      m := HeadIndex(log, synced, n - 1);
    }
  }

  // ---------------------------------------------------------------------
  // Numbering
  // ---------------------------------------------------------------------

  /** Trace IDs are not reused within the process. */
  ghost predicate DistinctIds(s: State) {
    forall t, u :: t in s.traces && u in s.traces && s.traces[t].id == s.traces[u].id ==> t == u
  }

  ghost predicate Bounded(s: State) {
    forall t :: t in s.traces ==> |s.traces[t].outcomes| + 1 < TWO_64
  }

  ghost predicate Regular(s: State) {
    DistinctIds(s) && Bounded(s)
  }

  function Key(s: State, id: string): string {
    Join(s.sink.chainId, id)
  }

  ghost predicate Numbered(s: State, t: nat)
    requires t in s.traces
  {
    var trace := s.traces[t];
    var last := LastRecorded(trace.outcomes);
    && trace.sequence == |trace.outcomes| + (if trace.pending.Some? then 1 else 0)
    && LastSequence(s.log, |s.log|, Key(s, trace.id)) == if last == -1 then None else Some((last + 1) as nat)
  }

  ghost predicate Owned(s: State, i: nat)
    requires i < |s.log|
  {
    exists t :: t in s.traces && s.traces[t].id == s.log[i].traceId
  }

  ghost predicate NumberInv(s: State) {
    Regular(s) ==>
      && (forall t :: t in s.traces ==> Numbered(s, t))
      && (forall i :: 0 <= i < |s.log| ==> Owned(s, i))
  }

  lemma BoundedBefore(c: Codec, s: State, a: Act, s': State)
    requires Step(c, s, a, s') && Bounded(s')
    ensures Bounded(s)
  {
    forall t | t in s.traces ensures |s.traces[t].outcomes| + 1 < TWO_64 {
      assert |s.traces[t].outcomes| <= |s'.traces[t].outcomes|;
    }
  }

  lemma RegularBefore(c: Codec, s: State, a: Act, s': State)
    requires Step(c, s, a, s') && Regular(s')
    ensures Regular(s)
  {
    BoundedBefore(c, s, a, s');
    forall t, u | t in s.traces && u in s.traces && s.traces[t].id == s.traces[u].id ensures t == u {
      assert s'.traces[t].id == s.traces[t].id && s'.traces[u].id == s.traces[u].id;
    }
  }

  /** A new ID has no events yet. */
  lemma NewIdUnseen(c: Codec, s: State, id: string)
    requires Shape(c, s) && (forall i :: 0 <= i < |s.log| ==> Owned(s, i))
    requires forall t :: t in s.traces ==> s.traces[t].id != id
    ensures LastSequence(s.log, |s.log|, Key(s, id)) == None
  {
    forall i | 0 <= i < |s.log| ensures TraceKey(s.log[i]) != Key(s, id) {
      assert WrittenOk(c, s, i) && Owned(s, i);
      var t :| t in s.traces && s.traces[t].id == s.log[i].traceId;
      if TraceKey(s.log[i]) == Key(s, id) {
        SameChainKeys(s.sink.chainId, s.log[i].traceId, id);
      }
    }
    var i := LastSequenceIs(s.log, |s.log|, Key(s, id));
  }

  lemma SameChainKeys(chain: string, x: string, y: string)
    requires Join(chain, x) == Join(chain, y)
    ensures x == y
  {
    assert Join(chain, x)[|chain| + 1..] == x && Join(chain, y)[|chain| + 1..] == y;
  }

  lemma NumberAfterNew(c: Codec, s: State, t: nat, id: string, s': State)
    requires Shape(c, s) && NumberInv(s) && Step(c, s, NewTrace(t, id), s')
    ensures NumberInv(s')
  {
    if Regular(s') {
      RegularBefore(c, s, NewTrace(t, id), s');
      forall u | u in s.traces ensures s.traces[u].id != id {
        assert s'.traces[u].id == s.traces[u].id && s'.traces[t].id == id;
      }
      NewIdUnseen(c, s, id);
      forall u | u in s'.traces ensures Numbered(s', u) {
        if u in s.traces {
          assert Numbered(s, u);
        }
      }
      forall i | 0 <= i < |s'.log| ensures Owned(s', i) {
        assert Owned(s, i);
        var u :| u in s.traces && s.traces[u].id == s.log[i].traceId;
        assert u in s'.traces && s'.traces[u].id == s'.log[i].traceId;
      }
    }
  }

  lemma OwnedStays(s: State, s': State, i: nat)
    requires i < |s.log| && i < |s'.log| && s.log[i] == s'.log[i] && Owned(s, i)
    requires forall t :: t in s.traces ==> t in s'.traces && s'.traces[t].id == s.traces[t].id
    ensures Owned(s', i)
  {
    var u :| u in s.traces && s.traces[u].id == s.log[i].traceId;
    assert u in s'.traces && s'.traces[u].id == s'.log[i].traceId;
  }

  lemma NumberAfterBegin(c: Codec, s: State, t: nat, timestamp: string, stage: string, outcome: string, data: string,
                         s': State)
    requires Shape(c, s) && NumberInv(s) && StepBegin(s, t, timestamp, stage, outcome, data, s')
    ensures NumberInv(s')
  {
    if Regular(s') {
      RegularBefore(c, s, Begin(t, timestamp, stage, outcome, data), s');
      assert Numbered(s, t) && |s.traces[t].outcomes| + 1 < TWO_64;
      assert Next64(s.traces[t].sequence) == s.traces[t].sequence + 1;
      forall u | u in s'.traces ensures Numbered(s', u) {
        assert Numbered(s, u);
      }
      forall i | 0 <= i < |s'.log| ensures Owned(s', i) {
        OwnedStays(s, s', i);
      }
    }
  }

  lemma NumberedAfterFinish(c: Codec, s: State, t: nat, day: Day, io: Io, s': State, u: nat)
    requires Shape(c, s) && SinkOk(s.sink) && StepFinish(c, s, t, day, io, s')
    requires DistinctIds(s) && u in s'.traces && Numbered(s, u)
    ensures Numbered(s', u)
  {
    SequenceAfterFinish(c, s, t, day, io, s', u);
    FinishSink(c, s, t, day, io, s');
    if u == t {
      LastRecordedSnoc(s.traces[t].outcomes, OutcomeOf(c, s.sink, s.traces[t].pending.value, day, io));
      assert PendingOk(s.traces[t]);
    }
  }

  lemma SequenceAfterFinish(c: Codec, s: State, t: nat, day: Day, io: Io, s': State, u: nat)
    requires Shape(c, s) && StepFinish(c, s, t, day, io, s')
    requires DistinctIds(s) && u in s.traces
    ensures var e, key := s.traces[t].pending.value, Key(s, s.traces[u].id);
            LastSequence(s'.log, |s'.log|, key) ==
            if |s'.log| > |s.log| && u == t then Some(e.sequence) else LastSequence(s.log, |s.log|, key)
  {
    var e := s.traces[t].pending.value;
    assert PendingOk(s.traces[t]);
    if |s'.log| > |s.log| {
      var w := Chained(c, Rotated(s.sink, day, io), e).value;
      RotatedFields(s.sink, day, io);
      ChainedFields(c, Rotated(s.sink, day, io), e);
      LastSnoc(c, s.log, w, s.sink.chainId, Key(s, s.traces[u].id));
      if TraceKey(w) == Key(s, s.traces[u].id) {
        SameChainKeys(s.sink.chainId, w.traceId, s.traces[u].id);
      }
    }
  }

  lemma NumberAfterFinish(c: Codec, s: State, t: nat, day: Day, io: Io, s': State)
    requires Shape(c, s) && SinkOk(s.sink) && NumberInv(s) && StepFinish(c, s, t, day, io, s')
    ensures NumberInv(s')
  {
    if Regular(s') {
      RegularBefore(c, s, Finish(t, day, io), s');
      assert PendingOk(s.traces[t]);
      forall u | u in s'.traces ensures Numbered(s', u) {
        NumberedAfterFinish(c, s, t, day, io, s', u);
      }
      forall i | 0 <= i < |s'.log| ensures Owned(s', i) {
        if i < |s.log| {
          OwnedStays(s, s', i);
        } else {
          WrittenOwner(c, s, t, day, io, s');
          assert t in s'.traces && s'.traces[t].id == s'.log[i].traceId;
        }
      }
    }
  }

  lemma WrittenOwner(c: Codec, s: State, t: nat, day: Day, io: Io, s': State)
    requires Shape(c, s) && StepFinish(c, s, t, day, io, s') && |s'.log| > |s.log|
    ensures s'.log[|s.log|].traceId == s.traces[t].id
  {
    assert PendingOk(s.traces[t]);
    ChainedFields(c, Rotated(s.sink, day, io), s.traces[t].pending.value);
  }

  lemma NumberStep(c: Codec, s: State, a: Act, s': State)
    requires Shape(c, s) && SinkOk(s.sink) && NumberInv(s) && Step(c, s, a, s')
    ensures NumberInv(s')
  {
    match a
    case NewTrace(t, id) => NumberAfterNew(c, s, t, id, s');
    case Begin(t, timestamp, stage, outcome, data) => NumberAfterBegin(c, s, t, timestamp, stage, outcome, data, s');
    case Finish(t, day, io) => NumberAfterFinish(c, s, t, day, io, s');
    case Shut =>
      if Regular(s') {
        forall u | u in s'.traces ensures Numbered(s', u) {
          assert Numbered(s, u);
        }
        forall i | 0 <= i < |s'.log| ensures Owned(s', i) {
          OwnedStays(s, s', i);
        }
      }
  }

  // ---------------------------------------------------------------------
  // Acceptance
  // ---------------------------------------------------------------------

  ghost predicate Gapless(s: State) {
    forall t :: t in s.traces ==> !HasGap(s.traces[t].outcomes)
  }

  /** Nothing was written after an event whose sync failed. */
  ghost predicate SyncedToTheEnd(synced: seq<bool>) {
    forall i :: 0 <= i < |synced| - 1 ==> synced[i]
  }

  lemma SyncedSnoc(synced: seq<bool>, b: bool)
    ensures SyncedToTheEnd(synced + [b]) <==> SyncedToTheEnd(synced) && (synced == [] || synced[|synced| - 1])
  {
    var longer := synced + [b];
    if SyncedToTheEnd(longer) {
      forall i | 0 <= i < |synced| ensures synced[i] {
        assert longer[i] == synced[i];
      }
    }
  }

  ghost predicate AcceptInv(c: Codec, s: State) {
    Regular(s) ==> (Accepts(c, s.log) <==> Gapless(s) && SyncedToTheEnd(s.synced))
  }

  /** The new event links to the end of the log exactly when the log is empty or its last event was synced. */
  lemma LinkOfWritten(c: Codec, s: State, w: Event)
    requires c.Faithful() && c.CollisionFree() && Shape(c, s)
    requires w.chainId == s.sink.chainId && w.previousHash == s.sink.previousHash
    ensures LinksOn(s.log, |s.log|, w) <==> (s.log == [] || s.synced[|s.log| - 1])
  {
    if s.log != [] {
      var n := |s.log| - 1;
      assert WrittenOk(c, s, n);
      NoSelfLink(c, s, n);
    }
  }

  /** It continues its trace's numbering exactly when no failed call lies between it and the last recorded one. */
  lemma NumberOfWritten(s: State, t: nat, w: Event)
    requires t in s.traces && Numbered(s, t) && |s.traces[t].outcomes| + 1 < TWO_64 && s.traces[t].pending.Some?
    requires w.chainId == s.sink.chainId && w.traceId == s.traces[t].id && w.sequence == s.traces[t].sequence
    ensures var h := s.traces[t].outcomes; NumbersOn(s.log, |s.log|, w) <==> !(0 <= LastRecorded(h) < |h| - 1)
  {
  }

  lemma AcceptAfterWrite(c: Codec, s: State, t: nat, day: Day, io: Io, s': State)
    requires c.Faithful() && c.CollisionFree() && s.sink.chainId != ""
    requires Shape(c, s) && Shape(c, s') && SinkOk(s.sink) && StepFinish(c, s, t, day, io, s') && |s'.log| > |s.log|
    requires Regular(s) && Numbered(s, t)
    ensures Accepts(c, s'.log) <==>
            && Accepts(c, s.log)
            && (s.log == [] || s.synced[|s.log| - 1])
            && !(0 <= LastRecorded(s.traces[t].outcomes) < |s.traces[t].outcomes| - 1)
  {
    var e, n := s.traces[t].pending.value, |s.log|;
    var w := s'.log[n];
    assert PendingOk(s.traces[t]);
    RotatedFields(s.sink, day, io);
    ChainedFields(c, Rotated(s.sink, day, io), e);
    LinkOfWritten(c, s, w);
    NumberOfWritten(s, t, w);
    NoSelfLink(c, s', n);
    AcceptsSnoc(c, s.log, w);
  }

  lemma AcceptAfterFinish(c: Codec, s: State, t: nat, day: Day, io: Io, s': State)
    requires c.Faithful() && c.CollisionFree() && s.sink.chainId != ""
    requires Shape(c, s) && Shape(c, s') && SinkOk(s.sink) && StepFinish(c, s, t, day, io, s')
    requires NumberInv(s) && AcceptInv(c, s)
    ensures AcceptInv(c, s')
  {
    if Regular(s') {
      RegularBefore(c, s, Finish(t, day, io), s');
      var h, out := s.traces[t].outcomes, OutcomeOf(c, s.sink, s.traces[t].pending.value, day, io);
      FinishSink(c, s, t, day, io, s');
      GapSnoc(h, out);
      GaplessAfter(s, t, h + [out], s');
      assert Numbered(s, t);
      if |s'.log| > |s.log| {
        AcceptAfterWrite(c, s, t, day, io, s');
        SyncedSnoc(s.synced, out.Written?);
      }
    }
  }

  lemma GaplessAfter(s: State, t: nat, h: seq<Outcome>, s': State)
    requires t in s.traces && s'.traces == s.traces[t := s.traces[t].(pending := None, outcomes := h)]
    requires HasGap(s.traces[t].outcomes) ==> HasGap(h)
    ensures Gapless(s') <==> Gapless(s) && !HasGap(h)
  {
    if Gapless(s') {
      forall u | u in s.traces ensures !HasGap(s.traces[u].outcomes) {
        assert u in s'.traces && !HasGap(s'.traces[u].outcomes);
      }
      assert t in s'.traces;
    }
  }

  lemma AcceptStep(c: Codec, s: State, a: Act, s': State)
    requires c.Faithful() && c.CollisionFree() && s.sink.chainId != ""
    requires Shape(c, s) && Shape(c, s') && SinkOk(s.sink) && NumberInv(s) && AcceptInv(c, s) && Step(c, s, a, s')
    ensures AcceptInv(c, s')
  {
    if a.Finish? {
      AcceptAfterFinish(c, s, a.t, a.day, a.io, s');
    } else if Regular(s') {
      RegularBefore(c, s, a, s');
      assert Gapless(s') <==> Gapless(s) by {
        forall t | t in s.traces ensures t in s'.traces && s'.traces[t].outcomes == s.traces[t].outcomes {
        }
        forall t | t in s'.traces && t !in s.traces ensures s'.traces[t].outcomes == [] {
        }
      }
    }
  }

  ghost predicate RunInv(c: Codec, chainId: string, s: State) {
    && s.sink.chainId == chainId && Shape(c, s) && SinkOk(s.sink) && NumberInv(s) && AcceptInv(c, s)
  }

  lemma RunInvStep(c: Codec, chainId: string, s: State, a: Act, s': State)
    requires c.Faithful() && c.CollisionFree() && chainId != "" && RunInv(c, chainId, s) && Step(c, s, a, s')
    ensures RunInv(c, chainId, s')
  {
    ShapeStep(c, s, a, s');
    NumberStep(c, s, a, s');
    AcceptStep(c, s, a, s');
    if a.Finish? {
      FinishSink(c, s, a.t, a.day, a.io, s');
    }
  }

  lemma {:induction false} InvInRun(c: Codec, chainId: string, run: seq<State>, i: nat)
    requires c.Faithful() && c.CollisionFree() && chainId != "" && IsRun(c, chainId, run) && i < |run|
    ensures RunInv(c, chainId, run[i])
  {
    if i > 0 {
      InvInRun(c, chainId, run, i - 1);
      assert NextAt(c, run, i - 1);
      var a :| Step(c, run[i - 1], a, run[i]);
      RunInvStep(c, chainId, run[i - 1], a, run[i]);
    }
  }

  // ---------------------------------------------------------------------
  // Counting
  // ---------------------------------------------------------------------

  ghost predicate NothingDropped(h: seq<Outcome>) {
    forall k :: 0 <= k < |h| ==> !h[k].Dropped?
  }

  ghost predicate AllRecorded(s: State) {
    forall t :: t in s.traces ==> NothingDropped(s.traces[t].outcomes)
  }

  ghost predicate CountInv(s: State) {
    |s.log| <= s.count && (AllRecorded(s) ==> |s.log| == s.count)
  }

  lemma RecordedBefore(c: Codec, s: State, a: Act, s': State)
    requires Step(c, s, a, s') && AllRecorded(s')
    ensures AllRecorded(s)
  {
    forall t | t in s.traces ensures NothingDropped(s.traces[t].outcomes) {
      var h, h' := s.traces[t].outcomes, s'.traces[t].outcomes;
      assert NothingDropped(h');
      forall k | 0 <= k < |h| ensures !h[k].Dropped? {
        assert h'[k] == h[k];
      }
    }
  }

  lemma CountStep(c: Codec, s: State, a: Act, s': State)
    requires SinkOk(s.sink) && CountInv(s) && Step(c, s, a, s')
    ensures CountInv(s')
  {
    if a.Finish? {
      FinishSink(c, s, a.t, a.day, a.io, s');
    }
    if AllRecorded(s') {
      RecordedBefore(c, s, a, s');
      if a.Finish? {
        var h := s'.traces[a.t].outcomes;
        assert NothingDropped(h) && !h[|h| - 1].Dropped?;
      }
    }
  }

  lemma {:induction false} CountsInRun(c: Codec, chainId: string, run: seq<State>, i: nat)
    requires c.Faithful() && c.CollisionFree() && chainId != "" && IsRun(c, chainId, run) && i < |run|
    ensures CountInv(run[i])
  {
    if i > 0 {
      CountsInRun(c, chainId, run, i - 1);
      InvInRun(c, chainId, run, i - 1);
      assert NextAt(c, run, i - 1);
      var a :| Step(c, run[i - 1], a, run[i]);
      CountStep(c, run[i - 1], a, run[i]);
    }
  }

  // ---------------------------------------------------------------------
  // Main results
  // ---------------------------------------------------------------------

  /** In every interleaving, with trace IDs that are not reused, the log is accepted if and only if no trace has a
      failed event strictly between two recorded ones and nothing was written after a failed sync. */
  lemma AcceptedIffNoGapAndSynced(c: Codec, chainId: string, run: seq<State>, i: nat)
    requires c.Faithful() && c.CollisionFree() && chainId != "" && IsRun(c, chainId, run) && i < |run|
    requires Regular(run[i])
    ensures Accepts(c, run[i].log) <==> Gapless(run[i]) && SyncedToTheEnd(run[i].synced)
  {
    InvInRun(c, chainId, run, i);
  }

  /** Failed appends that leave nothing on disk never break the hash links: before any failed sync, the log is a
      genuine chain. */
  lemma LinksSurviveFailures(c: Codec, chainId: string, run: seq<State>, i: nat)
    requires c.Faithful() && c.CollisionFree() && chainId != "" && IsRun(c, chainId, run) && i < |run|
    requires SyncedToTheEnd(run[i].synced)
    ensures Genuine(c, run[i].log)
  {
    InvInRun(c, chainId, run, i);
    GenuineWhenSynced(c, run[i]);
  }

  lemma GenuineWhenSynced(c: Codec, s: State)
    requires Shape(c, s) && SyncedToTheEnd(s.synced)
    ensures Genuine(c, s.log)
  {
    var log := s.log;
    forall k | 0 <= k < |log| ensures HashOk(c, log[k]) && log[k].chainId == s.sink.chainId {
      assert WrittenOk(c, s, k);
    }
    forall k | 0 < k < |log| ensures log[k].previousHash == log[k - 1].hash {
      assert WrittenOk(c, s, k);
    }
    if log != [] {
      assert WrittenOk(c, s, 0);
    }
  }
}
