/** The numbers in the log of a run, also when trace IDs are used more than once (Trace.Event in
    internal/audit/audit.go, a repeated X-Request-Id in internal/agent/server.go). */
module AuditNumbers {
  import opened Wrappers
  import opened Numerals
  import opened Strings
  import opened Days
  import opened AuditEvent
  import opened AuditVerify
  import opened AuditSink
  import opened AuditRun

  // ---------------------------------------------------------------------
  // Acceptance of any run
  // ---------------------------------------------------------------------

  /** The link at i to the event before it holds exactly if that one was synced. */
  lemma LinkAt(c: Codec, s: State, i: nat)
    requires c.Faithful() && c.CollisionFree() && Shape(c, s) && 0 < i < |s.log|
    ensures s.log[i].previousHash == s.log[i - 1].hash <==> s.synced[i - 1]
  {
    assert WrittenOk(c, s, i) && WrittenOk(c, s, i - 1);
    NoSelfLink(c, s, i - 1);
  }

  lemma OnlyNeighbour(c: Codec, s: State, i: nat, j: nat)
    requires Shape(c, s) && j < |s.log| && ChainNeighbours(s.log, i, j)
    ensures i == j - 1
  {
    assert WrittenOk(c, s, j - 1) && WrittenOk(c, s, j);
  }

  lemma WellFormed(c: Codec, s: State, i: nat)
    requires c.Faithful() && c.CollisionFree() && s.sink.chainId != "" && Shape(c, s) && i < |s.log|
    ensures LocallyOk(c, s.log[i])
  {
    assert WrittenOk(c, s, i);
    NoSelfLink(c, s, i);
  }

  lemma AcceptedShape(c: Codec, s: State)
    requires c.Faithful() && c.CollisionFree() && s.sink.chainId != "" && Shape(c, s)
    ensures Accepts(c, s.log) <==> Consecutive(s.log) && SyncedToTheEnd(s.synced)
  {
    AcceptsIffLinked(c, s.log);
    if Accepts(c, s.log) {
      forall i | 0 <= i < |s.synced| - 1 ensures s.synced[i] {
        assert WrittenOk(c, s, i) && WrittenOk(c, s, i + 1) && EventLinked(c, s.log, i + 1);
        assert ChainNeighbours(s.log, i, i + 1);
        LinkAt(c, s, i + 1);
      }
      forall i, j | 0 <= i < j && TraceNeighbours(s.log, i, j) ensures s.log[j].sequence == Next64(s.log[i].sequence) {
        assert EventLinked(c, s.log, j);
      }
    }
    if Consecutive(s.log) && SyncedToTheEnd(s.synced) {
      forall j | 0 <= j < |s.log| ensures EventLinked(c, s.log, j) {
        WellFormed(c, s, j);
        forall i: nat | ChainNeighbours(s.log, i, j) ensures s.log[j].previousHash == s.log[i].hash {
          OnlyNeighbour(c, s, i, j);
          LinkAt(c, s, j);
        }
      }
    }
  }

  /** In every run, whatever trace IDs it uses: the log is accepted exactly if the recorded numbers under each ID
      follow one another and nothing was written after a failed sync. */
  lemma AcceptedIffConsecutive(c: Codec, chainId: string, run: seq<State>, i: nat)
    requires c.Faithful() && c.CollisionFree() && chainId != "" && IsRun(c, chainId, run) && i < |run|
    ensures Accepts(c, run[i].log) <==> Consecutive(run[i].log) && SyncedToTheEnd(run[i].synced)
  {
    InvInRun(c, chainId, run, i);
    AcceptedShape(c, run[i]);
  }

  // ---------------------------------------------------------------------
  // Who wrote what
  // ---------------------------------------------------------------------

  /** How many of the first n events trace t wrote. */
  function WrittenBy(owners: seq<nat>, n: nat, t: nat): nat
    requires n <= |owners|
  {
    if n == 0 then 0 else WrittenBy(owners, n - 1, t) + if owners[n - 1] == t then 1 else 0
  }

  lemma {:induction false} WrittenPrefix(owners: seq<nat>, x: nat, n: nat, t: nat)
    requires n <= |owners|
    ensures WrittenBy(owners + [x], n, t) == WrittenBy(owners, n, t)
  {
    if n > 0 {
      WrittenPrefix(owners, x, n - 1, t);
    }
  }

  /** While nothing is dropped, each trace's events carry the numbers 1, 2, .. in file order. */
  ghost predicate NumberedInOrder(s: State)
    requires |s.log| == |s.owners|
  {
    && (forall i :: 0 <= i < |s.log| ==> s.log[i].sequence == WrittenBy(s.owners, i, s.owners[i]) + 1)
    && (forall t :: t in s.traces ==> WrittenBy(s.owners, |s.owners|, t) == |s.traces[t].outcomes|)
  }

  ghost predicate OwnerOk(s: State, i: nat)
    requires i < |s.log| == |s.owners|
  {
    s.owners[i] in s.traces && s.traces[s.owners[i]].id == s.log[i].traceId
  }

  ghost predicate Counted(trace: TraceState) {
    trace.sequence == |trace.outcomes| + if trace.pending.Some? then 1 else 0
  }

  ghost predicate OwnerInv(s: State) {
    && |s.log| == |s.owners|
    && (forall i :: 0 <= i < |s.log| ==> OwnerOk(s, i))
    && (Bounded(s) ==> forall t :: t in s.traces ==> Counted(s.traces[t]))
    && (Bounded(s) && AllRecorded(s) ==> NumberedInOrder(s))
  }

  lemma CountedStep(c: Codec, s: State, a: Act, s': State)
    requires OwnerInv(s) && Step(c, s, a, s') && Bounded(s')
    ensures forall t :: t in s'.traces ==> Counted(s'.traces[t])
  {
    BoundedBefore(c, s, a, s');
    if a.Begin? {
      assert Counted(s.traces[a.t]) && |s.traces[a.t].outcomes| + 1 < TWO_64;
    }
  }

  lemma OwnersStep(c: Codec, s: State, a: Act, s': State)
    requires OwnerInv(s) && Shape(c, s) && SinkOk(s.sink) && Step(c, s, a, s')
    ensures |s'.log| == |s'.owners| && forall i :: 0 <= i < |s'.log| ==> OwnerOk(s', i)
  {
    forall i | 0 <= i < |s'.log| ensures OwnerOk(s', i) {
      if i < |s.log| {
        assert OwnerOk(s, i);
      } else {
        assert PendingOk(s.traces[a.t]);
        ChainedFields(c, Rotated(s.sink, a.day, a.io), s.traces[a.t].pending.value);
      }
    }
  }

  /** What a finished call that was recorded adds. */
  lemma FinishAdds(c: Codec, s: State, t: nat, day: Day, io: Io, s': State)
    requires Shape(c, s) && SinkOk(s.sink) && StepFinish(c, s, t, day, io, s') && AllRecorded(s')
    ensures |s'.log| == |s.log| + 1 && s'.log[..|s.log|] == s.log && s'.owners == s.owners + [t]
    ensures s'.log[|s.log|].sequence == s.traces[t].sequence && s.traces[t].pending.Some?
    ensures |s'.traces[t].outcomes| == |s.traces[t].outcomes| + 1
    ensures s'.traces.Keys == s.traces.Keys
    ensures forall u :: u in s.traces && u != t ==> s'.traces[u] == s.traces[u]
  {
    var h := s'.traces[t].outcomes;
    assert NothingDropped(h) && !h[|h| - 1].Dropped?;
    FinishSink(c, s, t, day, io, s');
    assert PendingOk(s.traces[t]);
    ChainedFields(c, Rotated(s.sink, day, io), s.traces[t].pending.value);
  }

  /** One more event, by trace t and with the next number of that trace. */
  ghost predicate AddsNext(s: State, t: nat, s': State) {
    && |s.log| == |s.owners| && |s'.log| == |s.log| + 1
    && s'.log[..|s.log|] == s.log && s'.owners == s.owners + [t]
    && s'.log[|s.log|].sequence == WrittenBy(s.owners, |s.owners|, t) + 1
    && t in s.traces && s'.traces.Keys == s.traces.Keys
    && |s'.traces[t].outcomes| == |s.traces[t].outcomes| + 1
    && forall u :: u in s.traces && u != t ==> s'.traces[u] == s.traces[u]
  }

  lemma InOrderAfterAdding(s: State, t: nat, s': State)
    requires AddsNext(s, t, s') && NumberedInOrder(s)
    ensures NumberedInOrder(s')
  {
    forall i | 0 <= i < |s'.log| ensures s'.log[i].sequence == WrittenBy(s'.owners, i, s'.owners[i]) + 1 {
      WrittenPrefix(s.owners, t, i, s'.owners[i]);
      if i < |s.log| {
        assert s'.log[i] == s'.log[..|s.log|][i] == s.log[i];
      }
    }
    forall u | u in s'.traces ensures WrittenBy(s'.owners, |s'.owners|, u) == |s'.traces[u].outcomes| {
      WrittenPrefix(s.owners, t, |s.owners|, u);
    }
  }

  lemma InOrderAfterFinish(c: Codec, s: State, t: nat, day: Day, io: Io, s': State)
    requires OwnerInv(s) && Shape(c, s) && SinkOk(s.sink) && StepFinish(c, s, t, day, io, s')
    requires Bounded(s) && AllRecorded(s) && AllRecorded(s')
    ensures NumberedInOrder(s')
  {
    FinishAdds(c, s, t, day, io, s');
    assert Counted(s.traces[t]);
    InOrderAfterAdding(s, t, s');
  }

  lemma {:induction false} WrittenByOthers(s: State, n: nat, t: nat)
    requires |s.log| == |s.owners| && n <= |s.log| && t !in s.traces
    requires forall i :: 0 <= i < |s.log| ==> OwnerOk(s, i)
    ensures WrittenBy(s.owners, n, t) == 0
  {
    if n > 0 {
      WrittenByOthers(s, n - 1, t);
      assert OwnerOk(s, n - 1);
    }
  }

  lemma OwnerStep(c: Codec, s: State, a: Act, s': State)
    requires OwnerInv(s) && Shape(c, s) && SinkOk(s.sink) && Step(c, s, a, s')
    ensures OwnerInv(s')
  {
    OwnersStep(c, s, a, s');
    if Bounded(s') {
      CountedStep(c, s, a, s');
      if AllRecorded(s') {
        BoundedBefore(c, s, a, s');
        RecordedBefore(c, s, a, s');
        if a.Finish? {
          InOrderAfterFinish(c, s, a.t, a.day, a.io, s');
        } else if a.NewTrace? {
          WrittenByOthers(s, |s.log|, a.t);
        }
      }
    }
  }

  lemma {:induction false} OwnersInRun(c: Codec, chainId: string, run: seq<State>, i: nat)
    requires c.Faithful() && c.CollisionFree() && chainId != "" && IsRun(c, chainId, run) && i < |run|
    ensures OwnerInv(run[i])
  {
    if i > 0 {
      OwnersInRun(c, chainId, run, i - 1);
      InvInRun(c, chainId, run, i - 1);
      assert NextAt(c, run, i - 1);
      var a :| Step(c, run[i - 1], a, run[i]);
      OwnerStep(c, run[i - 1], a, run[i]);
    }
  }

  /** In every run, each entry of the log holds the timestamp, stage, outcome and data of the call that wrote it, and
      the ID of that call's trace. */
  lemma LogHoldsCalls(c: Codec, chainId: string, run: seq<State>, i: nat, k: nat)
    requires c.Faithful() && c.CollisionFree() && chainId != "" && IsRun(c, chainId, run) && i < |run|
    requires k < |run[i].log|
    ensures |run[i].owners| == |run[i].calls| == |run[i].log| && run[i].owners[k] in run[i].traces
    ensures var e, call := run[i].log[k], run[i].calls[k];
            && e.schema == "mygpt.audit.v1" && e.chainId == chainId && e.traceId == run[i].traces[run[i].owners[k]].id
            && e.timestamp == call.timestamp && e.stage == call.stage && e.outcome == call.outcome
            && e.data == call.data
  {
    InvInRun(c, chainId, run, i);
    OwnersInRun(c, chainId, run, i);
    assert WrittenOk(c, run[i], k) && OwnerOk(run[i], k);
  }

  // ---------------------------------------------------------------------
  // Used IDs
  // ---------------------------------------------------------------------

  lemma {:induction false} WrittenGrows(owners: seq<nat>, n: nat, m: nat, t: nat)
    requires n <= m <= |owners|
    ensures WrittenBy(owners, n, t) <= WrittenBy(owners, m, t)
    ensures (forall k :: n <= k < m ==> owners[k] != t) ==> WrittenBy(owners, n, t) == WrittenBy(owners, m, t)
  {
    if n < m {
      WrittenGrows(owners, n, m - 1, t);
    }
  }

  lemma {:induction false} FirstWritten(owners: seq<nat>, n: nat, t: nat) returns (p: nat)
    requires n <= |owners| && WrittenBy(owners, n, t) > 0
    ensures p < n && owners[p] == t && WrittenBy(owners, p, t) == 0
  {
    if WrittenBy(owners, n - 1, t) > 0 {
      p := FirstWritten(owners, n - 1, t);
    } else {
      p := n - 1;
    }
  }

  lemma {:induction false} NeighbourBefore(log: seq<Event>, p: nat, q: nat) returns (i: nat)
    requires p < q < |log| && TraceKey(log[p]) == TraceKey(log[q])
    ensures TraceNeighbours(log, i, q)
    decreases q - p
  {
    if k :| p < k < q && TraceKey(log[k]) == TraceKey(log[q]) {
      i := NeighbourBefore(log, k, q);
    } else {
      i := p;
    }
  }

  /** The number at i lies between 1 and the number of its trace's calls. */
  lemma NumberRange(s: State, i: nat)
    requires OwnerInv(s) && Bounded(s) && AllRecorded(s) && i < |s.log|
    ensures 1 <= s.log[i].sequence < TWO_64 - 1
    ensures OwnerOk(s, i) && s.traces[s.owners[i]].outcomes != []
  {
    assert OwnerOk(s, i);
    WrittenGrows(s.owners, i + 1, |s.owners|, s.owners[i]);
  }

  lemma KeysAreIds(c: Codec, s: State, i: nat, j: nat)
    requires OwnerInv(s) && Shape(c, s) && i < |s.log| && j < |s.log|
    ensures TraceKey(s.log[i]) == TraceKey(s.log[j]) <==> s.log[i].traceId == s.log[j].traceId
  {
    assert WrittenOk(c, s, i) && WrittenOk(c, s, j);
    if TraceKey(s.log[i]) == TraceKey(s.log[j]) {
      SameChainKeys(s.sink.chainId, s.log[i].traceId, s.log[j].traceId);
    }
  }

  /** No two traces with one ID have both made a call. */
  ghost predicate NoIdTwice(s: State) {
    forall t, u :: t in s.traces && u in s.traces && t != u && s.traces[t].id == s.traces[u].id ==>
      s.traces[t].outcomes == [] || s.traces[u].outcomes == []
  }

  lemma SameOwner(c: Codec, s: State, i: nat, j: nat)
    requires OwnerInv(s) && Shape(c, s) && Bounded(s) && AllRecorded(s) && NoIdTwice(s)
    requires i < |s.log| && j < |s.log|
    ensures TraceKey(s.log[i]) == TraceKey(s.log[j]) <==> s.owners[i] == s.owners[j]
  {
    NumberRange(s, i);
    NumberRange(s, j);
    KeysAreIds(c, s, i, j);
  }

  /** Nothing between i and j was written by the trace that wrote both. */
  ghost predicate OwnerNeighbours(owners: seq<nat>, i: nat, j: nat) {
    i < j < |owners| && owners[i] == owners[j] && forall k :: i + 1 <= k < j ==> owners[k] != owners[j]
  }

  lemma NeighboursByOwner(c: Codec, s: State, i: nat, j: nat)
    requires OwnerInv(s) && Shape(c, s) && Bounded(s) && AllRecorded(s) && NoIdTwice(s)
    requires TraceNeighbours(s.log, i, j)
    ensures OwnerNeighbours(s.owners, i, j)
  {
    SameOwner(c, s, i, j);
    forall k | i + 1 <= k < j ensures s.owners[k] != s.owners[j] {
      SameOwner(c, s, k, j);
    }
  }

  lemma NumbersFollow(s: State, i: nat, j: nat)
    requires OwnerInv(s) && Bounded(s) && AllRecorded(s) && OwnerNeighbours(s.owners, i, j)
    ensures s.log[j].sequence == Next64(s.log[i].sequence)
  {
    NumberRange(s, i);
    WrittenGrows(s.owners, i + 1, j, s.owners[j]);
  }

  lemma ConsecutiveAt(c: Codec, s: State, i: nat, j: nat)
    requires OwnerInv(s) && Shape(c, s) && Bounded(s) && AllRecorded(s) && NoIdTwice(s)
    requires TraceNeighbours(s.log, i, j)
    ensures s.log[j].sequence == Next64(s.log[i].sequence)
  {
    NeighboursByOwner(c, s, i, j);
    NumbersFollow(s, i, j);
  }

  lemma TwiceIsNotConsecutive(c: Codec, s: State, p: nat, q: nat)
    requires OwnerInv(s) && Shape(c, s) && Bounded(s) && AllRecorded(s) && p < q < |s.log|
    requires s.log[p].traceId == s.log[q].traceId && s.log[q].sequence == 1
    ensures !Consecutive(s.log)
  {
    KeysAreIds(c, s, p, q);
    var i := NeighbourBefore(s.log, p, q);
    NumberRange(s, i);
  }

  lemma TwiceWhenConsecutive(c: Codec, s: State, t: nat, u: nat)
    requires OwnerInv(s) && Shape(c, s) && Bounded(s) && AllRecorded(s)
    requires t in s.traces && u in s.traces && t != u && s.traces[t].id == s.traces[u].id
    requires s.traces[t].outcomes != [] && s.traces[u].outcomes != []
    ensures !Consecutive(s.log)
  {
    var p := FirstWritten(s.owners, |s.owners|, t);
    var q := FirstWritten(s.owners, |s.owners|, u);
    assert OwnerOk(s, p) && OwnerOk(s, q);
    if p < q {
      TwiceIsNotConsecutive(c, s, p, q);
    } else {
      TwiceIsNotConsecutive(c, s, q, p);
    }
  }

  // ---------------------------------------------------------------------
  // Main results
  // ---------------------------------------------------------------------

  /** When no append fails, the log is accepted exactly if no ID was used by two traces that both made a call. */
  lemma AcceptedIffNoIdTwice(c: Codec, chainId: string, run: seq<State>, i: nat)
    requires c.Faithful() && c.CollisionFree() && chainId != "" && IsRun(c, chainId, run) && i < |run|
    requires Bounded(run[i]) && AllRecorded(run[i]) && SyncedToTheEnd(run[i].synced)
    ensures Accepts(c, run[i].log) <==> NoIdTwice(run[i])
  {
    var s := run[i];
    InvInRun(c, chainId, run, i);
    OwnersInRun(c, chainId, run, i);
    AcceptedShape(c, s);
    if NoIdTwice(s) {
      forall i, j | 0 <= i < j && TraceNeighbours(s.log, i, j) ensures s.log[j].sequence == Next64(s.log[i].sequence) {
        ConsecutiveAt(c, s, i, j);
      }
    } else {
      var t, u :| t in s.traces && u in s.traces && t != u && s.traces[t].id == s.traces[u].id &&
                  s.traces[t].outcomes != [] && s.traces[u].outcomes != [];
      TwiceWhenConsecutive(c, s, t, u);
    }
  }

  /** A run of a process with this chain ID ends in s. */
  ghost predicate EndsIn(c: Codec, chainId: string, s: State) {
    exists run :: IsRun(c, chainId, run) && run[|run| - 1] == s
  }

  ghost predicate CleanLog(s: State) {
    Consecutive(s.log) && SyncedToTheEnd(s.synced)
  }

  lemma ProcessVerifies(c: Codec, chainId: string, s: State)
    requires c.Faithful() && c.CollisionFree() && chainId != "" && EndsIn(c, chainId, s)
    ensures Accepts(c, s.log) <==> CleanLog(s)
  {
    var run :| IsRun(c, chainId, run) && run[|run| - 1] == s;
    AcceptedIffConsecutive(c, chainId, run, |run| - 1);
  }

  /** ends holds for each chain of the log where its process stopped, and the log has what that process wrote. */
  ghost predicate Interleaves(c: Codec, ends: map<string, State>, log: seq<Event>) {
    forall id :: id in ChainsTo(log, |log|) ==>
      id != "" && NulFree(id) && id in ends && EndsIn(c, id, ends[id]) && Project(log, id) == ends[id].log
  }

  /** Restarts: however the lines of several processes are interleaved in the files, the log is accepted exactly if
      the numbers of each process follow one another and none of them wrote anything after a failed sync. */
  lemma RestartsVerify(c: Codec, ends: map<string, State>, log: seq<Event>)
    requires c.Faithful() && c.CollisionFree() && Interleaves(c, ends, log)
    ensures Accepts(c, log) <==> forall id :: id in ChainsTo(log, |log|) ==> CleanLog(ends[id])
    ensures ChainCount(log, |log|) == |ChainsTo(log, |log|)|
  {
    ChainsOfLog(log, |log|);
    AcceptsIffEachChain(c, log);
    forall id | id in ChainsTo(log, |log|) ensures Accepts(c, Project(log, id)) <==> CleanLog(ends[id]) {
      ProcessVerifies(c, id, ends[id]);
    }
  }

  lemma {:induction false} ChainsOfLog(log: seq<Event>, n: nat)
    requires n <= |log|
    ensures forall i :: 0 <= i < n ==> log[i].chainId in ChainsTo(log, n)
  {
    if n > 0 {
      ChainsOfLog(log, n - 1);
    }
  }

  /** With IDs that are not reused, then, the log is accepted, holds one event per finished call, and each trace's
      events stand in it in the order of their numbers 1, 2, .. up to the number of its calls. */
  lemma HonestRunVerifies(c: Codec, chainId: string, run: seq<State>, i: nat)
    requires c.Faithful() && c.CollisionFree() && chainId != "" && IsRun(c, chainId, run) && i < |run|
    requires Regular(run[i]) && AllRecorded(run[i]) && SyncedToTheEnd(run[i].synced)
    ensures Accepts(c, run[i].log) && |run[i].log| == run[i].count
    ensures |run[i].log| == |run[i].owners| && forall k :: 0 <= k < |run[i].log| ==> OwnerOk(run[i], k)
    ensures NumberedInOrder(run[i])
  {
    CountsInRun(c, chainId, run, i);
    OwnersInRun(c, chainId, run, i);
    AcceptedIffNoIdTwice(c, chainId, run, i);
  }

  // ---------------------------------------------------------------------
  // A reused ID that is accepted
  // ---------------------------------------------------------------------

  ghost predicate Encodes(c: Codec) {
    forall e :: c.encode(e).Some?
  }

  /** Everything works, or only the write fails. */
  function Healthy(cutoff: Cutoff, writeOk: bool): Io {
    Io(true, true, true, true, writeOk, true, cutoff, {})
  }

  /** The circumstances of a call. */
  datatype Today = Today(day: Day, cutoff: Cutoff, timestamp: string)

  ghost predicate ReadyOn(s: State, day: Day) {
    && SinkOk(s.sink) && s.today == day
    && (s.sink.handle.NoFile? || (s.sink.handle.Open? && s.sink.currentDay == Some(day)))
  }

  /** The trace after a call. */
  function After(trace: TraceState, out: Outcome, now: Today): TraceState {
    TraceState(trace.id, Next64(trace.sequence), None, trace.outcomes + [out], Passed(now.timestamp, "", "", ""))
  }

  /** A whole call of a trace whose append succeeds, or whose write fails. */
  lemma Call(c: Codec, s: State, t: nat, now: Today, ok: bool) returns (mid: State, s': State)
    requires Encodes(c) && ReadyOn(s, now.day) && t in s.traces && s.traces[t].pending.None?
    ensures Step(c, s, Begin(t, now.timestamp, "", "", ""), mid)
    ensures Step(c, mid, Finish(t, now.day, Healthy(now.cutoff, ok)), s')
    ensures ReadyOn(s', now.day)
    ensures var trace := s.traces[t];
            var out := if ok then Outcome.Written else Dropped;
            s'.traces == s.traces[t := After(trace, out, now)]
    ensures if ok then
              && |s'.log| == |s.log| + 1 && s'.log[..|s.log|] == s.log && s'.synced == s.synced + [true]
              && s'.log[|s.log|].sequence == Next64(s.traces[t].sequence)
            else s'.log == s.log && s'.synced == s.synced
  {
    var trace := s.traces[t];
    var e := NewEvent(trace.id, Next64(trace.sequence), now.timestamp, "", "", "");
    mid := s.(traces := s.traces[t := trace.(sequence := e.sequence, pending := Some(e),
                                             call := Passed(now.timestamp, "", "", ""))]);
    var io := Healthy(now.cutoff, ok);
    var out, w := OutcomeOf(c, s.sink, e, now.day, io), Chained(c, Rotated(s.sink, now.day, io), e);
    assert w.Some? && out == if ok then Outcome.Written else Dropped;
    var sink := Appended(c, s.sink, e, now.day, io);
    var done := After(trace, out, now);
    s' := s.(sink := sink, traces := s.traces[t := done], count := s.count + 1);
    if ok {
      s' := s'.(log := s.log + [w.value], synced := s.synced + [true], owners := s.owners + [t],
                  calls := s.calls + [done.call]);
    }
    assert s'.traces == mid.traces[t := done];
  }

  lemma Longer(c: Codec, chainId: string, run: seq<State>, a: Act, s': State)
    requires IsRun(c, chainId, run) && Step(c, run[|run| - 1], a, s')
    ensures IsRun(c, chainId, run + [s'])
  {
    var longer := run + [s'];
    forall i | 0 <= i < |longer| - 1 ensures NextAt(c, longer, i) {
      if i < |run| - 1 {
        assert NextAt(c, run, i) && longer[i] == run[i] && longer[i + 1] == run[i + 1];
      } else {
        assert longer[i] == run[i] && Next(c, run[i], s');
      }
    }
  }

  lemma CallInRun(c: Codec, chainId: string, run: seq<State>, t: nat, now: Today, ok: bool) returns (longer: seq<State>)
    requires IsRun(c, chainId, run)
    requires var s := run[|run| - 1];
             Encodes(c) && ReadyOn(s, now.day) && t in s.traces && s.traces[t].pending.None?
    ensures IsRun(c, chainId, longer)
    ensures var s, s' := run[|run| - 1], longer[|longer| - 1];
            var trace, out := s.traces[t], if ok then Outcome.Written else Dropped;
            && ReadyOn(s', now.day)
            && s'.traces == s.traces[t := After(trace, out, now)]
            && if ok then
                 && |s'.log| == |s.log| + 1 && s'.log[..|s.log|] == s.log && s'.synced == s.synced + [true]
                 && s'.log[|s.log|].sequence == Next64(s.traces[t].sequence)
               else s'.log == s.log && s'.synced == s.synced
  {
    var mid, s' := Call(c, run[|run| - 1], t, now, ok);
    Longer(c, chainId, run, Begin(t, now.timestamp, "", "", ""), mid);
    Longer(c, chainId, run + [mid], Finish(t, now.day, Healthy(now.cutoff, ok)), s');
    longer := run + [mid] + [s'];
  }

  function NewTraceState(id: string): TraceState {
    TraceState(id, 0, None, [], Passed("", "", "", ""))
  }

  lemma TwoTraces(c: Codec, chainId: string, now: Today, id: string) returns (run: seq<State>)
    requires id != ""
    ensures IsRun(c, chainId, run)
    ensures var s := run[|run| - 1];
            && ReadyOn(s, now.day) && s.log == [] && s.synced == []
            && s.traces == map[0 := NewTraceState(id), 1 := NewTraceState(id)]
  {
    var s0 := State(Sink(chainId, "", None, NoFile, map[]), map[], now.day, 0, [], [], [], []);
    var s1 := s0.(traces := map[0 := NewTraceState(id)]);
    var s2 := s1.(traces := map[0 := NewTraceState(id), 1 := NewTraceState(id)]);
    assert IsRun(c, chainId, [s0]);
    assert Step(c, s0, NewTrace(0, id), s1);
    Longer(c, chainId, [s0], NewTrace(0, id), s1);
    assert Step(c, s1, NewTrace(1, id), s2);
    Longer(c, chainId, [s0] + [s1], NewTrace(1, id), s2);
    run := [s0] + [s1] + [s2];
  }

  /** Two traces share an ID, and the log is accepted all the same: the first call of the second one was not
      recorded, so that its second call continues where the first trace ended. */
  lemma ReusedIdCanBeAccepted(c: Codec, chainId: string, now: Today, id: string) returns (run: seq<State>)
    requires c.Faithful() && c.CollisionFree() && Encodes(c) && chainId != "" && id != ""
    ensures IsRun(c, chainId, run)
    ensures var s := run[|run| - 1];
            && s.traces.Keys == {0, 1} && s.traces[0].id == s.traces[1].id == id
            && s.traces[0].outcomes == [Outcome.Written] && s.traces[1].outcomes == [Dropped, Outcome.Written]
            && Accepts(c, s.log)
  {
    run := TwoTraces(c, chainId, now, id);
    run := CallInRun(c, chainId, run, 0, now, true);
    run := CallInRun(c, chainId, run, 1, now, false);
    run := CallInRun(c, chainId, run, 1, now, true);
    var s := run[|run| - 1];
    assert s.log[0].sequence == 1 && s.log[1].sequence == 2;
    assert Consecutive(s.log);
    AcceptedIffConsecutive(c, chainId, run, |run| - 1);
  }
}
