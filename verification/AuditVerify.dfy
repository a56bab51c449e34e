/** The one-pass verifier of audit logs (Verify in internal/audit/read.go) and the logs it accepts. */
module AuditVerify {
  import opened Numerals
  import opened Wrappers
  import opened Strings
  import opened AuditEvent

  datatype Fault = MissingIdentity | BreaksChain | BreaksSequence | BadHash

  /** event counts from 1, as the message does. */
  datatype FirstError = FirstError(event: nat, fault: Fault)

  datatype VerifyResult = VerifyResult(valid: bool, events: nat, chains: nat, firstError: Option<FirstError>)

  predicate HasIdentity(e: Event) {
    e.schema == SCHEMA && e.chainId != "" && e.traceId != "" && e.hash != ""
  }

  function TraceKey(e: Event): string {
    Join(e.chainId, e.traceId)
  }

  function Next64(n: nat): nat {
    (n + 1) % TWO_64
  }

  // The functions below look at the first n events of a log.

  /** The hash of the last event of a chain. */
  function LastHash(log: seq<Event>, n: nat, chain: string): Option<string>
    requires n <= |log|
  {
    if n == 0 then None
    else if log[n - 1].chainId == chain then Some(log[n - 1].hash)
    else LastHash(log, n - 1, chain)
  }

  /** The sequence number of the last event under a trace key. */
  function LastSequence(log: seq<Event>, n: nat, key: string): Option<nat>
    requires n <= |log|
  {
    if n == 0 then None
    else if TraceKey(log[n - 1]) == key then Some(log[n - 1].sequence)
    else LastSequence(log, n - 1, key)
  }

  /** The event links to the last event of its chain, if there is one. */
  predicate LinksOn(log: seq<Event>, n: nat, e: Event)
    requires n <= |log|
  {
    var last := LastHash(log, n, e.chainId);
    last.Some? ==> e.previousHash == last.value
  }

  /** The event has the number after the last one of its trace, if there is one. */
  predicate NumbersOn(log: seq<Event>, n: nat, e: Event)
    requires n <= |log|
  {
    var last := LastSequence(log, n, TraceKey(e));
    last.Some? ==> e.sequence == Next64(last.value)
  }

  /** What is wrong, in the order of the checks, with an event that follows the first n events. */
  function FaultOf(c: Codec, log: seq<Event>, n: nat, e: Event): Option<Fault>
    requires n <= |log|
  {
    if !HasIdentity(e) then Some(MissingIdentity)
    else if !LinksOn(log, n, e) then Some(BreaksChain)
    else if !NumbersOn(log, n, e) then Some(BreaksSequence)
    else if ExpectedHash(c, e) != Some(e.hash) then Some(BadHash)
    else None
  }

  ghost predicate AcceptsTo(c: Codec, log: seq<Event>, n: nat)
    requires n <= |log|
  {
    n == 0 || (AcceptsTo(c, log, n - 1) && FaultOf(c, log, n - 1, log[n - 1]) == None)
  }

  ghost predicate Accepts(c: Codec, log: seq<Event>) {
    AcceptsTo(c, log, |log|)
  }

  /** The distinct chains. */
  function ChainsTo(log: seq<Event>, n: nat): set<string>
    requires n <= |log|
  {
    if n == 0 then {} else ChainsTo(log, n - 1) + {log[n - 1].chainId}
  }

  // ---------------------------------------------------------------------
  // The loop
  // ---------------------------------------------------------------------

  // What the maps hold after n events.

  function HashByChain(log: seq<Event>, n: nat): map<string, string>
    requires n <= |log|
  {
    if n == 0 then map[] else HashByChain(log, n - 1)[log[n - 1].chainId := log[n - 1].hash]
  }

  function SequenceByTrace(log: seq<Event>, n: nat): map<string, nat>
    requires n <= |log|
  {
    if n == 0 then map[] else SequenceByTrace(log, n - 1)[TraceKey(log[n - 1]) := log[n - 1].sequence]
  }

  lemma {:induction false} MapsHoldLast(log: seq<Event>, n: nat, chain: string, key: string)
    requires n <= |log|
    ensures LastHash(log, n, chain) == if chain in HashByChain(log, n) then Some(HashByChain(log, n)[chain]) else None
    ensures LastSequence(log, n, key) ==
            if key in SequenceByTrace(log, n) then Some(SequenceByTrace(log, n)[key]) else None
    ensures chain in HashByChain(log, n) <==> chain in ChainsTo(log, n)
  {
    if n > 0 {
      MapsHoldLast(log, n - 1, chain, key);
    }
  }

  /** The number of events that are the first of their chain. */
  function ChainCount(log: seq<Event>, n: nat): nat
    requires n <= |log|
  {
    if n == 0 then 0
    else ChainCount(log, n - 1) + if log[n - 1].chainId in HashByChain(log, n - 1) then 0 else 1
  }

  /** It is the number of distinct chains. */
  lemma {:induction false} ChainCountIsSize(log: seq<Event>, n: nat)
    requires n <= |log|
    ensures ChainCount(log, n) == |ChainsTo(log, n)|
  {
    if n > 0 {
      ChainCountIsSize(log, n - 1);
      MapsHoldLast(log, n - 1, log[n - 1].chainId, "");
      if log[n - 1].chainId in ChainsTo(log, n - 1) {
        assert ChainsTo(log, n) == ChainsTo(log, n - 1);
      }
    }
  }

  /** The maps decide the two comparisons. */
  lemma MapsDecide(log: seq<Event>, n: nat, e: Event)
    requires n <= |log|
    ensures LinksOn(log, n, e) <==>
            (e.chainId in HashByChain(log, n) ==> e.previousHash == HashByChain(log, n)[e.chainId])
    ensures NumbersOn(log, n, e) <==>
            (TraceKey(e) in SequenceByTrace(log, n) ==> e.sequence == Next64(SequenceByTrace(log, n)[TraceKey(e)]))
  {
    MapsHoldLast(log, n, e.chainId, TraceKey(e));
  }

  /** The chains counted when the fault is found: the event's own chain counts unless its identity is missing. */
  function ChainsSeen(events: seq<Event>, n: nat, fault: Fault): nat
    requires n < |events|
  {
    if fault.MissingIdentity? then ChainCount(events, n) else ChainCount(events, n + 1)
  }

  /** The report names the first event that does not fit what precedes it, and why. */
  ghost predicate Reports(c: Codec, events: seq<Event>, result: VerifyResult) {
    && !result.valid && result.firstError.Some?
    && var FirstError(event, fault) := result.firstError.value;
       && 1 <= event <= |events|
       && AcceptsTo(c, events, event - 1)
       && FaultOf(c, events, event - 1, events[event - 1]) == Some(fault)
       && result.chains == ChainsSeen(events, event - 1, fault)
  }

  /** What the verifier answers: an accepted log with its counts, or the first fault of a log that is not accepted. */
  ghost predicate Answers(c: Codec, events: seq<Event>, result: VerifyResult) {
    && result.events == |events|
    && if Accepts(c, events)
       then result.valid && result.chains == ChainCount(events, |events|) && result.firstError == None
       else Reports(c, events, result)
  }

  lemma {:induction false} PrefixAccepted(c: Codec, log: seq<Event>, n: nat, m: nat)
    requires n <= m <= |log| && AcceptsTo(c, log, m)
    ensures AcceptsTo(c, log, n)
  {
    if n < m {
      PrefixAccepted(c, log, n, m - 1);
    }
  }

  lemma ReportAt(c: Codec, events: seq<Event>, n: nat, fault: Fault)
    requires n < |events| && AcceptsTo(c, events, n) && FaultOf(c, events, n, events[n]) == Some(fault)
    ensures Answers(c, events,
                    VerifyResult(false, |events|, ChainsSeen(events, n, fault), Some(FirstError(n + 1, fault))))
  {
    if Accepts(c, events) {
      PrefixAccepted(c, events, n + 1, |events|);
    }
  }

  /** The loop accepts exactly the accepted logs; on the first bad event it stops and names it. */
  method Verify(c: Codec, events: seq<Event>) returns (result: VerifyResult)
    ensures Answers(c, events, result)
  {
    result := VerifyResult(true, |events|, 0, None);
    var lastByChain: map<string, string> := map[];
    var seenChain: set<string> := {};
    var lastSequence: map<string, nat> := map[];
    var seenTrace: set<string> := {};
    for index := 0 to |events|
      invariant result == VerifyResult(true, |events|, ChainCount(events, index), None)
      invariant AcceptsTo(c, events, index)
      invariant forall ch :: ch in seenChain <==> ch in lastByChain
      invariant lastByChain == HashByChain(events, index)
      invariant lastSequence == SequenceByTrace(events, index)
      invariant forall k :: k in seenTrace <==> k in lastSequence
    {
      var event := events[index];
      var traceKey := TraceKey(event);
      MapsDecide(events, index, event);
      if !HasIdentity(event) {
        ReportAt(c, events, index, MissingIdentity);
        return result.(valid := false, firstError := Some(FirstError(index + 1, MissingIdentity)));
      }
      if event.chainId !in seenChain {
        seenChain := seenChain + {event.chainId};
        result := result.(chains := result.chains + 1);
      } else if event.previousHash != lastByChain[event.chainId] {
        ReportAt(c, events, index, BreaksChain);
        return result.(valid := false, firstError := Some(FirstError(index + 1, BreaksChain)));
      }
      if traceKey in seenTrace && event.sequence != Next64(lastSequence[traceKey]) {
        ReportAt(c, events, index, BreaksSequence);
        return result.(valid := false, firstError := Some(FirstError(index + 1, BreaksSequence)));
      }
      if ExpectedHash(c, event) != Some(event.hash) {
        ReportAt(c, events, index, BadHash);
        return result.(valid := false, firstError := Some(FirstError(index + 1, BadHash)));
      }
      lastByChain := lastByChain[event.chainId := event.hash];
      seenTrace := seenTrace + {traceKey};
      lastSequence := lastSequence[traceKey := event.sequence];
    }
  }

  // ---------------------------------------------------------------------
  // Extending a log
  // ---------------------------------------------------------------------

  /** Only the first n events matter. */
  lemma {:induction false} SamePrefix(c: Codec, log: seq<Event>, more: seq<Event>, n: nat, chain: string, key: string)
    requires n <= |log| && n <= |more| && forall i :: 0 <= i < n ==> log[i] == more[i]
    ensures LastHash(log, n, chain) == LastHash(more, n, chain)
    ensures LastSequence(log, n, key) == LastSequence(more, n, key)
  {
    if n > 0 {
      SamePrefix(c, log, more, n - 1, chain, key);
    }
  }

  lemma {:induction false} SamePrefixAccepted(c: Codec, log: seq<Event>, more: seq<Event>, n: nat)
    requires n <= |log| && n <= |more| && forall i :: 0 <= i < n ==> log[i] == more[i]
    ensures AcceptsTo(c, log, n) <==> AcceptsTo(c, more, n)
  {
    if n > 0 {
      SamePrefixAccepted(c, log, more, n - 1);
      SamePrefix(c, log, more, n - 1, log[n - 1].chainId, TraceKey(log[n - 1]));
    }
  }

  lemma AcceptsSnoc(c: Codec, log: seq<Event>, e: Event)
    ensures Accepts(c, log + [e]) <==> Accepts(c, log) && FaultOf(c, log, |log|, e) == None
  {
    SamePrefixAccepted(c, log, log + [e], |log|);
    SamePrefix(c, log, log + [e], |log|, e.chainId, TraceKey(e));
  }

  lemma LastSnoc(c: Codec, log: seq<Event>, e: Event, chain: string, key: string)
    ensures LastHash(log + [e], |log| + 1, chain) ==
            if e.chainId == chain then Some(e.hash) else LastHash(log, |log|, chain)
    ensures LastSequence(log + [e], |log| + 1, key) ==
            if TraceKey(e) == key then Some(e.sequence) else LastSequence(log, |log|, key)
  {
    SamePrefix(c, log, log + [e], |log|, chain, key);
  }

  // ---------------------------------------------------------------------
  // The same logs without recursion: neighbours in a chain, neighbours in a trace
  // ---------------------------------------------------------------------

  ghost predicate ChainNeighbours(log: seq<Event>, i: nat, j: nat) {
    i < j < |log| && log[i].chainId == log[j].chainId && forall k :: i < k < j ==> log[k].chainId != log[j].chainId
  }

  ghost predicate TraceNeighbours(log: seq<Event>, i: nat, j: nat) {
    i < j < |log| && TraceKey(log[i]) == TraceKey(log[j]) &&
    forall k :: i < k < j ==> TraceKey(log[k]) != TraceKey(log[j])
  }

  ghost predicate LocallyOk(c: Codec, e: Event) {
    HasIdentity(e) && HashOk(c, e)
  }

  ghost predicate ChainLinkOk(log: seq<Event>, j: nat)
    requires j < |log|
  {
    forall i: nat :: ChainNeighbours(log, i, j) ==> log[j].previousHash == log[i].hash
  }

  ghost predicate TraceLinkOk(log: seq<Event>, j: nat)
    requires j < |log|
  {
    forall i: nat :: TraceNeighbours(log, i, j) ==> log[j].sequence == Next64(log[i].sequence)
  }

  ghost predicate EventLinked(c: Codec, log: seq<Event>, j: nat)
    requires j < |log|
  {
    LocallyOk(c, log[j]) && ChainLinkOk(log, j) && TraceLinkOk(log, j)
  }

  /** Every event carries its own hash, links to its chain's previous event and continues its trace's numbering. */
  ghost predicate Linked(c: Codec, log: seq<Event>) {
    forall j :: 0 <= j < |log| ==> EventLinked(c, log, j)
  }

  lemma {:induction false} LastHashIs(log: seq<Event>, n: nat, chain: string) returns (i: int)
    requires n <= |log|
    ensures -1 <= i < n
    ensures LastHash(log, n, chain) == if i == -1 then None else Some(log[i].hash)
    ensures i >= 0 ==> log[i].chainId == chain
    ensures forall k :: i < k < n ==> log[k].chainId != chain
  {
    if n == 0 {
      i := -1;
    } else if log[n - 1].chainId == chain {
      i := n - 1;
    } else {
      i := LastHashIs(log, n - 1, chain);
    }
  }

  lemma {:induction false} LastSequenceIs(log: seq<Event>, n: nat, key: string) returns (i: int)
    requires n <= |log|
    ensures -1 <= i < n
    ensures LastSequence(log, n, key) == if i == -1 then None else Some(log[i].sequence)
    ensures i >= 0 ==> TraceKey(log[i]) == key
    ensures forall k :: i < k < n ==> TraceKey(log[k]) != key
  {
    if n == 0 {
      i := -1;
    } else if TraceKey(log[n - 1]) == key {
      i := n - 1;
    } else {
      i := LastSequenceIs(log, n - 1, key);
    }
  }

  lemma ChainLinkIs(log: seq<Event>, n: nat)
    requires n < |log|
    ensures ChainLinkOk(log, n) <==> LinksOn(log, n, log[n])
  {
    var x := LastHashIs(log, n, log[n].chainId);
    if x >= 0 {
      assert ChainNeighbours(log, x, n);
    }
    forall i: nat | ChainNeighbours(log, i, n) ensures i == x {
    }
  }

  lemma TraceLinkIs(log: seq<Event>, n: nat)
    requires n < |log|
    ensures TraceLinkOk(log, n) <==> NumbersOn(log, n, log[n])
  {
    var x := LastSequenceIs(log, n, TraceKey(log[n]));
    if x >= 0 {
      assert TraceNeighbours(log, x, n);
    }
    forall i: nat | TraceNeighbours(log, i, n) ensures i == x {
    }
  }

  lemma NoFaultIffLinked(c: Codec, log: seq<Event>, n: nat)
    requires n < |log|
    ensures FaultOf(c, log, n, log[n]) == None <==> EventLinked(c, log, n)
  {
    ChainLinkIs(log, n);
    TraceLinkIs(log, n);
  }

  /** The four checks of one event, in its place in the log and without the maps. */
  predicate LacksIdentity(e: Event) {
    e.schema != "mygpt.audit.v1" || e.chainId == "" || e.traceId == "" || e.hash == ""
  }

  ghost predicate OffChain(log: seq<Event>, j: nat) {
    exists i: nat :: ChainNeighbours(log, i, j) && log[j].previousHash != log[i].hash
  }

  ghost predicate OffSequence(log: seq<Event>, j: nat) {
    exists i: nat :: TraceNeighbours(log, i, j) && log[j].sequence != (log[i].sequence + 1) % 0x1_0000_0000_0000_0000
  }

  predicate HasWrongHash(c: Codec, e: Event) {
    var payload := c.encode(e.(hash := ""));
    payload.None? || e.hash != c.digest(e.previousHash + "\0" + payload.value)
  }

  /** What is reported of an event: a missing field, else a broken chain, else a broken sequence, else a wrong hash. */
  lemma FaultInOrder(c: Codec, log: seq<Event>, n: nat)
    requires n < |log|
    ensures FaultOf(c, log, n, log[n]) ==
            if LacksIdentity(log[n]) then Some(MissingIdentity)
            else if OffChain(log, n) then Some(BreaksChain)
            else if OffSequence(log, n) then Some(BreaksSequence)
            else if HasWrongHash(c, log[n]) then Some(BadHash)
            else None
  {
    ChainLinkIs(log, n);
    TraceLinkIs(log, n);
    assert OffChain(log, n) <==> !ChainLinkOk(log, n);
    assert OffSequence(log, n) <==> !TraceLinkOk(log, n);
  }

  lemma {:induction false} AcceptsToIffLinked(c: Codec, log: seq<Event>, n: nat)
    requires n <= |log|
    ensures AcceptsTo(c, log, n) <==> forall j :: 0 <= j < n ==> EventLinked(c, log, j)
  {
    if n > 0 {
      AcceptsToIffLinked(c, log, n - 1);
      NoFaultIffLinked(c, log, n - 1);
    }
  }

  /** The verifier accepts exactly the logs whose neighbours are linked. */
  lemma AcceptsIffLinked(c: Codec, log: seq<Event>)
    ensures Accepts(c, log) <==> Linked(c, log)
  {
    AcceptsToIffLinked(c, log, |log|);
  }

  /** Any contiguous piece of an accepted log is accepted, in particular what retention leaves of it. */
  lemma SliceAccepted(c: Codec, log: seq<Event>, lo: nat, hi: nat)
    requires Accepts(c, log) && lo <= hi <= |log|
    ensures Accepts(c, log[lo..hi])
  {
    var slice := log[lo..hi];
    AcceptsIffLinked(c, log);
    forall j | 0 <= j < |slice| ensures EventLinked(c, slice, j) {
      assert EventLinked(c, log, lo + j);
      forall i: nat | ChainNeighbours(slice, i, j) ensures slice[j].previousHash == slice[i].hash {
        ShiftedChain(log, lo, hi, i, j);
      }
      forall i: nat | TraceNeighbours(slice, i, j) ensures slice[j].sequence == Next64(slice[i].sequence) {
        ShiftedTrace(log, lo, hi, i, j);
      }
    }
    AcceptsIffLinked(c, slice);
  }

  lemma ShiftedChain(log: seq<Event>, lo: nat, hi: nat, i: nat, j: nat)
    requires lo <= hi <= |log| && ChainNeighbours(log[lo..hi], i, j)
    ensures ChainNeighbours(log, lo + i, lo + j)
  {
    forall k | lo + i < k < lo + j ensures log[k].chainId != log[lo + j].chainId {
      assert log[k] == log[lo..hi][k - lo];
    }
  }

  lemma ShiftedTrace(log: seq<Event>, lo: nat, hi: nat, i: nat, j: nat)
    requires lo <= hi <= |log| && TraceNeighbours(log[lo..hi], i, j)
    ensures TraceNeighbours(log, lo + i, lo + j)
  {
    forall k | lo + i < k < lo + j ensures TraceKey(log[k]) != TraceKey(log[lo + j]) {
      assert log[k] == log[lo..hi][k - lo];
    }
  }

  ghost predicate Faultless(c: Codec, log: seq<Event>, j: nat)
    requires j < |log|
  {
    !LacksIdentity(log[j]) && !OffChain(log, j) && !OffSequence(log, j) && !HasWrongHash(c, log[j])
  }

  lemma FaultlessIsFine(c: Codec, log: seq<Event>, n: nat)
    requires n < |log|
    ensures Faultless(c, log, n) <==> FaultOf(c, log, n, log[n]) == None
  {
    FaultInOrder(c, log, n);
  }

  ghost predicate FaultlessTo(c: Codec, log: seq<Event>, n: nat)
    requires n <= |log|
  {
    forall j :: 0 <= j < n ==> Faultless(c, log, j)
  }

  lemma {:induction false} AcceptsToIffFaultless(c: Codec, log: seq<Event>, n: nat)
    requires n <= |log|
    ensures AcceptsTo(c, log, n) <==> FaultlessTo(c, log, n)
  {
    if n > 0 {
      AcceptsToIffFaultless(c, log, n - 1);
      FaultlessIsFine(c, log, n - 1);
    }
  }

  /** The first fault of the event at j, which is the first faulty one, and the chains up to there, with the chain of
      that event unless it lacks its identity. */
  ghost predicate NamesFirstFault(c: Codec, events: seq<Event>, j: nat, fault: Fault, chains: nat)
    requires j < |events|
  {
    && FaultlessTo(c, events, j)
    && (match fault
        case MissingIdentity => LacksIdentity(events[j])
        case BreaksChain => !LacksIdentity(events[j]) && OffChain(events, j)
        case BreaksSequence => !LacksIdentity(events[j]) && !OffChain(events, j) && OffSequence(events, j)
        case BadHash =>
          && !LacksIdentity(events[j]) && !OffChain(events, j) && !OffSequence(events, j)
          && HasWrongHash(c, events[j]))
    && chains == |ChainsTo(events, if LacksIdentity(events[j]) then j else j + 1)|
  }

  lemma FirstFaultNamed(c: Codec, events: seq<Event>, j: nat, fault: Fault)
    requires j < |events| && AcceptsTo(c, events, j) && FaultOf(c, events, j, events[j]) == Some(fault)
    ensures NamesFirstFault(c, events, j, fault, ChainsSeen(events, j, fault))
  {
    AcceptsToIffFaultless(c, events, j);
    FaultInOrder(c, events, j);
    ChainCountIsSize(events, j);
    ChainCountIsSize(events, j + 1);
  }

  ghost predicate ReportsFirstFault(c: Codec, events: seq<Event>, result: VerifyResult) {
    && result.firstError.Some? && 1 <= result.firstError.value.event <= |events|
    && var FirstError(event, fault) := result.firstError.value;
       NamesFirstFault(c, events, event - 1, fault, result.chains)
  }

  lemma ReportNamesFirstFault(c: Codec, events: seq<Event>, result: VerifyResult)
    requires Reports(c, events, result)
    ensures ReportsFirstFault(c, events, result)
  {
    FirstFaultNamed(c, events, result.firstError.value.event - 1, result.firstError.value.fault);
  }

  /** The verdict is valid exactly if every event passes the four checks, and then counts the chains. Otherwise it
      names the first event that does not pass them and its first fault. */
  lemma VerdictNamesFirstFault(c: Codec, events: seq<Event>, result: VerifyResult)
    requires Answers(c, events, result)
    ensures result.events == |events| && (result.valid <==> FaultlessTo(c, events, |events|))
    ensures result.valid ==> result.firstError == None && result.chains == |ChainsTo(events, |events|)|
    ensures !result.valid ==> ReportsFirstFault(c, events, result)
  {
    AcceptsToIffFaultless(c, events, |events|);
    if Accepts(c, events) {
      ChainCountIsSize(events, |events|);
    } else {
      ReportNamesFirstFault(c, events, result);
    }
  }

  // ---------------------------------------------------------------------
  // Chains are verified independently
  // ---------------------------------------------------------------------

  /** The events of one chain among the first n, in order. */
  function ProjectTo(log: seq<Event>, n: nat, chain: string): seq<Event>
    requires n <= |log|
  {
    if n == 0 then []
    else if log[n - 1].chainId == chain then ProjectTo(log, n - 1, chain) + [log[n - 1]]
    else ProjectTo(log, n - 1, chain)
  }

  function Project(log: seq<Event>, chain: string): seq<Event> {
    ProjectTo(log, |log|, chain)
  }

  lemma {:induction false} ProjectSame(log: seq<Event>, more: seq<Event>, n: nat, chain: string)
    requires n <= |log| && n <= |more| && forall i :: 0 <= i < n ==> log[i] == more[i]
    ensures ProjectTo(log, n, chain) == ProjectTo(more, n, chain)
  {
    if n > 0 {
      ProjectSame(log, more, n - 1, chain);
    }
  }

  lemma ProjectSnoc(log: seq<Event>, e: Event, chain: string)
    ensures Project(log + [e], chain) == if e.chainId == chain then Project(log, chain) + [e] else Project(log, chain)
  {
    ProjectSame(log, log + [e], |log|, chain);
  }

  ghost predicate ChainsNulFree(log: seq<Event>) {
    forall i :: 0 <= i < |log| ==> NulFree(log[i].chainId)
  }

  lemma {:induction false} ProjectKeepsLast(c: Codec, log: seq<Event>, n: nat, chain: string, trace: string)
    requires n <= |log| && NulFree(chain) && ChainsNulFree(log)
    ensures var p, key := ProjectTo(log, n, chain), Join(chain, trace);
            && LastHash(p, |p|, chain) == LastHash(log, n, chain)
            && LastSequence(p, |p|, key) == LastSequence(log, n, key)
  {
    if n > 0 {
      var e := log[n - 1];
      ProjectKeepsLast(c, log, n - 1, chain, trace);
      if e.chainId == chain {
        LastSnoc(c, ProjectTo(log, n - 1, chain), e, chain, Join(chain, trace));
      } else if TraceKey(e) == Join(chain, trace) {
        JoinInjectiveFront(e.chainId, e.traceId, chain, trace);
      }
    }
  }

  /** The next event is fine for the log exactly when it is fine for its own chain. */
  lemma FaultInProjection(c: Codec, log: seq<Event>, n: nat)
    requires n < |log| && ChainsNulFree(log)
    ensures var p := ProjectTo(log, n, log[n].chainId); FaultOf(c, p, |p|, log[n]) == FaultOf(c, log, n, log[n])
  {
    ProjectKeepsLast(c, log, n, log[n].chainId, log[n].traceId);
  }

  lemma {:induction false} EachChainAccepted(c: Codec, log: seq<Event>, n: nat, chain: string)
    requires n <= |log| && ChainsNulFree(log) && AcceptsTo(c, log, n)
    ensures Accepts(c, ProjectTo(log, n, chain))
  {
    if n > 0 {
      EachChainAccepted(c, log, n - 1, chain);
      if log[n - 1].chainId == chain {
        FaultInProjection(c, log, n - 1);
        AcceptsSnoc(c, ProjectTo(log, n - 1, chain), log[n - 1]);
      }
    }
  }

  /** Every chain among the first n events is accepted on its own. */
  ghost predicate EachAcceptsTo(c: Codec, log: seq<Event>, n: nat)
    requires n <= |log|
  {
    forall chain :: chain in ChainsTo(log, n) ==> Accepts(c, ProjectTo(log, n, chain))
  }

  lemma ChainsShrink(c: Codec, log: seq<Event>, n: nat)
    requires n < |log| && EachAcceptsTo(c, log, n + 1)
    ensures EachAcceptsTo(c, log, n)
  {
    forall chain | chain in ChainsTo(log, n) ensures Accepts(c, ProjectTo(log, n, chain)) {
      assert chain in ChainsTo(log, n + 1);
      if log[n].chainId == chain {
        AcceptsSnoc(c, ProjectTo(log, n, chain), log[n]);
      }
    }
  }

  lemma LastIsFine(c: Codec, log: seq<Event>, n: nat)
    requires n < |log| && ChainsNulFree(log) && EachAcceptsTo(c, log, n + 1)
    ensures FaultOf(c, log, n, log[n]) == None
  {
    var e := log[n];
    assert e.chainId in ChainsTo(log, n + 1);
    AcceptsSnoc(c, ProjectTo(log, n, e.chainId), e);
    FaultInProjection(c, log, n);
  }

  lemma {:induction false} ChainsSuffice(c: Codec, log: seq<Event>, n: nat)
    requires n <= |log| && ChainsNulFree(log) && EachAcceptsTo(c, log, n)
    ensures AcceptsTo(c, log, n)
  {
    if n > 0 {
      ChainsShrink(c, log, n - 1);
      ChainsSuffice(c, log, n - 1);
      LastIsFine(c, log, n - 1);
    }
  }

  ghost predicate EachChainAccepts(c: Codec, log: seq<Event>) {
    EachAcceptsTo(c, log, |log|)
  }

  /** A log of NUL-free chains is accepted exactly when each chain is accepted on its own, and then the verifier
      counts the distinct chains. */
  lemma AcceptsIffEachChain(c: Codec, log: seq<Event>)
    requires ChainsNulFree(log)
    ensures Accepts(c, log) <==> EachChainAccepts(c, log)
    ensures ChainCount(log, |log|) == |ChainsTo(log, |log|)|
  {
    ChainCountIsSize(log, |log|);
    if Accepts(c, log) {
      forall chain | chain in ChainsTo(log, |log|) ensures Accepts(c, Project(log, chain)) {
        EachChainAccepted(c, log, |log|, chain);
      }
    }
    if EachChainAccepts(c, log) {
      ChainsSuffice(c, log, |log|);
    }
  }

  /** Without the condition on chain IDs: traces of two different chains can have one trace key exactly if one chain
      ID, with its NUL, is the beginning of the other one. */
  lemma KeysCanCollide(a: string, b: string)
    requires a != b
    ensures (exists t, u :: t != "" && u != "" && Join(a, t) == Join(b, u)) <==>
            Join(a, "") <= Join(b, "") || Join(b, "") <= Join(a, "")
  {
    JoinsMeet(a, b);
  }

  /** Under each trace key of the log the numbers follow one another. */
  ghost predicate Consecutive(log: seq<Event>) {
    forall i, j :: 0 <= i < j && TraceNeighbours(log, i, j) ==> log[j].sequence == Next64(log[i].sequence)
  }

  /** The last hash of a chain is the same in the log and in the chain alone, whatever its ID. */
  lemma {:induction false} ProjectKeepsHash(c: Codec, log: seq<Event>, n: nat, chain: string)
    requires n <= |log|
    ensures var p := ProjectTo(log, n, chain); LastHash(p, |p|, chain) == LastHash(log, n, chain)
  {
    if n > 0 {
      ProjectKeepsHash(c, log, n - 1, chain);
      if log[n - 1].chainId == chain {
        LastSnoc(c, ProjectTo(log, n - 1, chain), log[n - 1], chain, "");
      }
    }
  }

  /** An event that is fine in its chain alone is fine in the log apart from its number. */
  lemma FineApartFromNumber(c: Codec, log: seq<Event>, n: nat)
    requires n < |log| && EachAcceptsTo(c, log, n + 1)
    ensures FaultOf(c, log, n, log[n]) == None <==> NumbersOn(log, n, log[n])
  {
    var e := log[n];
    assert e.chainId in ChainsTo(log, n + 1);
    AcceptsSnoc(c, ProjectTo(log, n, e.chainId), e);
    ProjectKeepsHash(c, log, n, e.chainId);
  }

  ghost predicate NumbersTo(log: seq<Event>, n: nat)
    requires n <= |log|
  {
    forall i :: 0 <= i < n ==> NumbersOn(log, i, log[i])
  }

  lemma {:induction false} AcceptsToIffNumbers(c: Codec, log: seq<Event>, n: nat)
    requires n <= |log| && EachAcceptsTo(c, log, n)
    ensures AcceptsTo(c, log, n) <==> NumbersTo(log, n)
  {
    if n > 0 {
      ChainsShrink(c, log, n - 1);
      AcceptsToIffNumbers(c, log, n - 1);
      FineApartFromNumber(c, log, n - 1);
    }
  }

  lemma NumbersIffConsecutive(log: seq<Event>)
    ensures NumbersTo(log, |log|) <==> Consecutive(log)
  {
    forall j | 0 <= j < |log| ensures NumbersOn(log, j, log[j]) <==> TraceLinkOk(log, j) {
      TraceLinkIs(log, j);
    }
    if NumbersTo(log, |log|) {
      forall i, j | 0 <= i < j && TraceNeighbours(log, i, j) ensures log[j].sequence == Next64(log[i].sequence) {
        assert NumbersOn(log, j, log[j]) && TraceLinkOk(log, j);
      }
    }
  }

  /** Then the numberings of two chains are checked as one: a log whose chains are all accepted alone is accepted
      exactly if the numbers under each trace key follow one another, across the chains. */
  lemma CollisionIsMisjudged(c: Codec, log: seq<Event>)
    requires EachChainAccepts(c, log)
    ensures Accepts(c, log) <==> Consecutive(log)
  {
    AcceptsToIffNumbers(c, log, |log|);
    NumbersIffConsecutive(log);
  }

  /** So of two events that are accepted alone, the log is accepted exactly if they have different trace keys or
      happen to be numbered one after the other. */
  lemma TwoEventsMisjudged(c: Codec, e: Event, f: Event)
    requires LocallyOk(c, e) && LocallyOk(c, f) && e.chainId != f.chainId
    ensures Accepts(c, [e]) && Accepts(c, [f])
    ensures Accepts(c, [e, f]) <==> (TraceKey(e) == TraceKey(f) ==> f.sequence == Next64(e.sequence))
  {
    AcceptsSnoc(c, [], e);
    AcceptsSnoc(c, [], f);
    assert [] + [e] == [e] && [] + [f] == [f] && [e] + [f] == [e, f];
    AcceptsSnoc(c, [e], f);
    LastSnoc(c, [], e, f.chainId, TraceKey(f));
  }

  /** For instance chain "a" with trace "b<NUL>c" and chain "a<NUL>b" with trace "c", both numbered 1: each
      chain is accepted, the log of both is not. */
  lemma TraceKeysCollide(c: Codec, e: Event, f: Event)
    requires LocallyOk(c, e) && e.chainId == "a" && e.traceId == "b\0c" && e.sequence == 1
    requires LocallyOk(c, f) && f.chainId == "a\0b" && f.traceId == "c" && f.sequence == 1
    ensures TraceKey(e) == TraceKey(f)
    ensures Accepts(c, [e]) && Accepts(c, [f]) && !Accepts(c, [e, f])
  {
    assert TraceKey(e) == ['a', '\0', 'b', '\0', 'c'] == TraceKey(f);
    TwoEventsMisjudged(c, e, f);
  }
}
