/** Session locks in every run: mutual exclusion per session key, and where each locked section starts. */
module RunSessions {
  import opened Wrappers
  import opened RunProtocol
  import opened Strings
  import SessionStore

  predicate Within(t: Thread) {
    !t.phase.Queued? && !t.phase.Waiting? && !t.phase.Gone?
  }

  /** Both are inside the locked section of the same session. */
  predicate Together(t: Thread, u: Thread) {
    Within(t) && Within(u) && t.key == u.key != ""
  }

  ghost predicate LocksDistinct(locks: map<string, nat>) {
    && (forall k :: k in locks ==> locks[k] < |locks|)
    && (forall k, k' :: k in locks && k' in locks && locks[k] == locks[k'] ==> k == k')
  }

  ghost predicate LockOfThread(s: State, r: Id)
    requires r in s.threads
  {
    var t := s.threads[r];
    && NulFree(t.key)
    && (t.phase.Waiting? ==> t.key != "" && t.key in s.locks && s.locks[t.key] == t.phase.lock)
    && (Within(t) && t.key != "" ==>
          t.key in s.locks && s.locks[t.key] in s.held && s.held[s.locks[t.key]] == r)
  }

  ghost predicate LockHeld(s: State, lock: nat)
    requires lock in s.held
  {
    var r := s.held[lock];
    && r in s.threads && Within(s.threads[r]) && s.threads[r].key != ""
    && s.threads[r].key in s.locks && s.locks[s.threads[r].key] == lock
  }

  ghost predicate LockInv(s: State) {
    && LocksDistinct(s.locks)
    && (forall r :: r in s.threads ==> LockOfThread(s, r))
    && (forall l :: l in s.held ==> LockHeld(s, l))
  }

  /** The steps a request takes between acquiring and releasing its session lock. */
  predicate InSection(act: Act) {
    !act.FindLock? && !act.Acquire? && !act.EnterUnkeyed? && !act.Leave?
  }

  lemma SectionStepLocks(env: Env, s: State, r: Id, act: Act, s': State)
    requires r in s.threads && StepRequest(env, s, r, act, s') && InSection(act)
    ensures s'.locks == s.locks && s'.held == s.held
  {
  }

  lemma StepThreads(env: Env, s: State, r: Id, act: Act, s': State)
    requires r in s.threads && StepRequest(env, s, r, act, s')
    ensures r in s'.threads && s'.threads == s.threads[r := s'.threads[r]]
    ensures s'.threads[r] == s.threads[r].(phase := s'.threads[r].phase, since := s.clock)
  {
  }

  lemma SectionStepWithin(env: Env, s: State, r: Id, act: Act, s': State)
    requires r in s.threads && StepRequest(env, s, r, act, s') && InSection(act)
    ensures Within(s.threads[r]) && r in s'.threads && Within(s'.threads[r])
  {
  }

  lemma LockInSection(env: Env, s: State, r: Id, act: Act, s': State)
    requires LockInv(s) && r in s.threads && StepRequest(env, s, r, act, s') && InSection(act)
    ensures LockInv(s')
  {
    SectionStepLocks(env, s, r, act, s');
    StepThreads(env, s, r, act, s');
    SectionStepWithin(env, s, r, act, s');
    forall x | x in s'.threads ensures LockOfThread(s', x) {
      assert LockOfThread(s, x);
    }
    forall l | l in s'.held ensures LockHeld(s', l) {
      assert LockHeld(s, l);
    }
  }

  lemma NewLock(locks: map<string, nat>, key: string)
    requires LocksDistinct(locks) && key !in locks
    ensures LocksDistinct(locks[key := |locks|])
  {
    assert locks[key := |locks|].Keys == locks.Keys + {key};
  }

  lemma FoundLocks(env: Env, s: State, r: Id, s': State)
    requires LockInv(s) && r in s.threads && StepRequest(env, s, r, FindLock, s')
    ensures LocksDistinct(s'.locks)
    ensures s.threads[r].key in s'.locks
    ensures forall k :: k in s.locks ==> k in s'.locks && s'.locks[k] == s.locks[k]
    ensures forall k :: k in s'.locks ==> k in s.locks || k == s.threads[r].key
  {
    var key := s.threads[r].key;
    if key in s.locks {
      assert s'.locks == s.locks;
    } else {
      NewLock(s.locks, key);
    }
  }

  lemma LockFound(env: Env, s: State, r: Id, s': State)
    requires LockInv(s) && r in s.threads && StepRequest(env, s, r, FindLock, s')
    ensures LockInv(s')
  {
    FoundLocks(env, s, r, s');
    forall x | x in s'.threads ensures LockOfThread(s', x) {
      assert LockOfThread(s, x);
    }
    forall l | l in s'.held ensures LockHeld(s', l) {
      assert LockHeld(s, l);
    }
  }

  lemma LockAcquired(env: Env, s: State, r: Id, s': State)
    requires LockInv(s) && r in s.threads && StepRequest(env, s, r, Acquire, s')
    ensures LockInv(s')
  {
    assert LockOfThread(s, r);
    forall x | x in s'.threads ensures LockOfThread(s', x) {
      assert LockOfThread(s, x);
    }
    forall l | l in s'.held ensures LockHeld(s', l) {
      if l in s.held {
        assert LockHeld(s, l);
      }
    }
  }

  lemma ReleasedLocks(env: Env, s: State, r: Id, s': State)
    requires LockInv(s) && r in s.threads && StepRequest(env, s, r, Leave, s')
    ensures Releases(s, r, s')
  {
    assert LockOfThread(s, r);
  }

  /** Request r, inside its section, goes and takes its lock out of the held ones. */
  ghost predicate Releases(s: State, r: Id, s': State)
    requires r in s.threads
  {
    var key := s.threads[r].key;
    && Within(s.threads[r]) && (key != "" ==> key in s.locks)
    && s'.locks == s.locks && s'.held == (if key == "" then s.held else s.held - {s.locks[key]})
    && r in s'.threads && s'.threads == s.threads[r := s'.threads[r]]
    && s'.threads[r].phase.Gone? && s'.threads[r].key == key
  }

  lemma LockReleased(s: State, r: Id, s': State)
    requires LockInv(s) && r in s.threads && Releases(s, r, s')
    ensures LockInv(s')
  {
    assert LockOfThread(s, r);
    forall x | x in s'.threads ensures LockOfThread(s', x) {
      assert LockOfThread(s, x);
    }
    forall l | l in s'.held ensures LockHeld(s', l) {
      assert LockHeld(s, l);
    }
  }

  lemma LockStep(env: Env, s: State, a: Action, s': State)
    requires LockInv(s) && Step(env, s, a, s')
    ensures LockInv(s')
  {
    if a.Do? && InSection(a.act) {
      LockInSection(env, s, a.r, a.act, s');
    } else if a.Do? && a.act.FindLock? {
      LockFound(env, s, a.r, s');
    } else if a.Do? && a.act.Acquire? {
      LockAcquired(env, s, a.r, s');
    } else if a.Do? && a.act.Leave? {
      ReleasedLocks(env, s, a.r, s');
      LockReleased(s, a.r, s');
    } else {
      forall x | x in s'.threads ensures LockOfThread(s', x) {
        if x in s.threads {
          assert LockOfThread(s, x);
        }
      }
      forall l | l in s'.held ensures LockHeld(s', l) {
        assert LockHeld(s, l);
      }
    }
  }

  /** Two requests of one non-empty session key are never inside their locked sections together. */
  lemma MutualExclusion(s: State, r: Id, x: Id)
    requires LockInv(s) && r in s.threads && x in s.threads
    requires Together(s.threads[r], s.threads[x])
    ensures r == x
  {
    assert LockOfThread(s, r) && LockOfThread(s, x);
  }

  // ---------------------------------------------------------------------
  // What the trace of a run says about sections and directories
  // ---------------------------------------------------------------------

  /** The request whose section of key k is open at the end of the trace. */
  ghost function Holder(trace: seq<Event>, k: string): Option<Id> {
    if trace == [] then None
    else
      var last := trace[|trace| - 1];
      if last.Entered? && last.key == k then Some(last.r)
      else if last.Left? && last.key == k then None
      else Holder(trace[..|trace| - 1], k)
  }

  /** The directory that the last setting request of key k left, or the one loaded at startup. */
  ghost function LastSet(env: Env, trace: seq<Event>, k: string): Option<string> {
    if trace == [] then SessionStore.Saved(env.savedDirs, k)
    else
      var last := trace[|trace| - 1];
      if last.SetTo? && last.key == k then Some(last.dir)
      else LastSet(env, trace[..|trace| - 1], k)
  }

  /** The event is one that a request produces inside the locked section of its key. */
  predicate Sectioned(ev: Event) {
    ev.Read? || ev.SetTo? || ev.Missed? || ev.Hit? || ev.Stored? || ev.Left?
  }

  /** What must be true of an event given everything that happened before it. */
  ghost predicate Orderly(env: Env, before: seq<Event>, ev: Event) {
    && (ev.Entered? ==> ev.key != "" && Holder(before, ev.key) == None)
    && (Sectioned(ev) && ev.key != "" ==> Holder(before, ev.key) == Some(ev.r))
    && (ev.Read? && ev.key != "" ==>
          && ev.stored == LastSet(env, before, ev.key)
          && ev.dir == if ev.stored.Some? && ev.live then ev.stored.value else env.fallback)
    && (ev.Read? && ev.key == "" ==> ev.dir == env.fallback)
  }

  ghost predicate OrderlyTrace(env: Env, trace: seq<Event>) {
    forall i :: 0 <= i < |trace| ==> Orderly(env, trace[..i], trace[i])
  }

  ghost function OpenSection(s: State, k: string): Option<Id> {
    if k in s.locks && s.locks[k] in s.held then Some(s.held[s.locks[k]]) else None
  }

  ghost predicate TraceInv(env: Env, s: State) {
    && OrderlyTrace(env, s.trace)
    && (forall k :: k != "" ==> Holder(s.trace, k) == OpenSection(s, k))
    && (forall k :: k != "" ==> LastSet(env, s.trace, k) == SessionStore.Saved(s.dirs, k))
  }

  lemma OrderlyExtended(env: Env, trace: seq<Event>, ev: Event)
    requires OrderlyTrace(env, trace) && Orderly(env, trace, ev)
    ensures OrderlyTrace(env, trace + [ev])
  {
    var longer := trace + [ev];
    forall i | 0 <= i < |longer| ensures Orderly(env, longer[..i], longer[i]) {
      if i < |trace| {
        assert longer[..i] == trace[..i];
      } else {
        assert longer[..i] == trace;
      }
    }
  }

  lemma LastEvent(env: Env, trace: seq<Event>, ev: Event, k: string)
    ensures Holder(trace + [ev], k) ==
            if ev.Entered? && ev.key == k then Some(ev.r)
            else if ev.Left? && ev.key == k then None
            else Holder(trace, k)
    ensures LastSet(env, trace + [ev], k) ==
            if ev.SetTo? && ev.key == k then Some(ev.dir) else LastSet(env, trace, k)
  {
    assert (trace + [ev])[..|trace|] == trace;
  }

  lemma EventShape(env: Env, s: State, r: Id, act: Act)
    requires r in s.threads
    ensures var ev := EventOf(env, s, r, act);
            && (Sectioned(ev) || ev.Entered? ==> ev.r == r && ev.key == s.threads[r].key)
            && (ev.Entered? <==> act.Acquire?) && (ev.Left? <==> act.Leave?) && (ev.Read? <==> act.Locate?)
  {
  }

  lemma StepTrace(env: Env, s: State, r: Id, act: Act, s': State)
    requires r in s.threads && StepRequest(env, s, r, act, s')
    ensures s'.trace == s.trace + [EventOf(env, s, r, act)]
    ensures Sectioned(EventOf(env, s, r, act)) ==> Within(s.threads[r])
  {
  }

  lemma StepDirs(env: Env, s: State, r: Id, act: Act, s': State)
    requires r in s.threads && StepRequest(env, s, r, act, s')
    ensures var ev := EventOf(env, s, r, act);
            if ev.SetTo? then ev.key != "" && ev.dir != "" && s'.dirs == s.dirs[ev.key := ev.dir] else s'.dirs == s.dirs
  {
  }

  lemma EventIsOrderly(env: Env, s: State, r: Id, act: Act, s': State)
    requires LockInv(s) && TraceInv(env, s) && r in s.threads && StepRequest(env, s, r, act, s')
    ensures Orderly(env, s.trace, EventOf(env, s, r, act))
  {
    EventShape(env, s, r, act);
    StepTrace(env, s, r, act, s');
    assert LockOfThread(s, r);
  }

  lemma HoldersAfter(env: Env, s: State, r: Id, act: Act, s': State, k: string)
    requires LockInv(s) && TraceInv(env, s) && r in s.threads && StepRequest(env, s, r, act, s') && k != ""
    ensures Holder(s.trace + [EventOf(env, s, r, act)], k) == OpenSection(s', k)
  {
    EventShape(env, s, r, act);
    LastEvent(env, s.trace, EventOf(env, s, r, act), k);
    SectionsAfter(env, s, r, act, s', k);
  }

  lemma TraceStepRequest(env: Env, s: State, r: Id, act: Act, s': State)
    requires LockInv(s) && TraceInv(env, s) && r in s.threads && StepRequest(env, s, r, act, s')
    ensures TraceInv(env, s')
  {
    var ev := EventOf(env, s, r, act);
    StepTrace(env, s, r, act, s');
    StepDirs(env, s, r, act, s');
    EventIsOrderly(env, s, r, act, s');
    OrderlyExtended(env, s.trace, ev);
    forall k | k != "" ensures LastSet(env, s'.trace, k) == SessionStore.Saved(s'.dirs, k) {
      LastEvent(env, s.trace, ev, k);
    }
    forall k | k != "" ensures Holder(s'.trace, k) == OpenSection(s', k) {
      HoldersAfter(env, s, r, act, s', k);
    }
  }

  lemma SectionsAfter(env: Env, s: State, r: Id, act: Act, s': State, k: string)
    requires LockInv(s) && r in s.threads && StepRequest(env, s, r, act, s') && k != ""
    ensures OpenSection(s', k) ==
            if act.Acquire? && s.threads[r].key == k then Some(r)
            else if act.Leave? && s.threads[r].key == k then None
            else OpenSection(s, k)
  {
    assert LockOfThread(s, r);
    if InSection(act) {
      SectionStepLocks(env, s, r, act, s');
    } else if act.FindLock? {
      SectionsAfterFind(env, s, r, s', k);
    } else if act.Acquire? {
      assert s'.held == s.held[s.locks[s.threads[r].key] := r] && s'.locks == s.locks;
    } else if act.Leave? {
      assert s'.locks == s.locks;
    } else {
      assert s'.held == s.held && s'.locks == s.locks;
    }
  }

  lemma SectionsAfterFind(env: Env, s: State, r: Id, s': State, k: string)
    requires LockInv(s) && r in s.threads && StepRequest(env, s, r, FindLock, s')
    ensures OpenSection(s', k) == OpenSection(s, k)
  {
    FoundLocks(env, s, r, s');
    assert forall l :: l in s.held ==> LockHeld(s, l);
  }

  lemma TraceStep(env: Env, s: State, a: Action, s': State)
    requires LockInv(s) && TraceInv(env, s) && Step(env, s, a, s')
    ensures TraceInv(env, s')
  {
    if a.Do? {
      TraceStepRequest(env, s, a.r, a.act, s');
    } else {
      OrderlyExtended(env, s.trace, Quiet);
      forall k
        ensures LastSet(env, s'.trace, k) == LastSet(env, s.trace, k) && Holder(s'.trace, k) == Holder(s.trace, k)
      {
        LastEvent(env, s.trace, Quiet, k);
      }
    }
  }

  /** A request that has read its session directory still finds it saved, or has fallen back to the workspace root. */
  ghost predicate StartOk(env: Env, s: State, r: Id)
    requires r in s.threads
  {
    var t := s.threads[r];
    && (t.phase.Located? || t.phase.Resolved? ==>
          t.phase.start == env.fallback || (t.key != "" && SessionStore.Saved(s.dirs, t.key) == Some(t.phase.start)))
    && (t.phase.Resolved? ==> t.phase.workdir == Target(env, t.phase.start, t.req.workdir))
  }

  ghost predicate StartInv(env: Env, s: State) {
    forall r :: r in s.threads ==> StartOk(env, s, r)
  }

  lemma StartOfOther(env: Env, s: State, r: Id, act: Act, s': State, x: Id)
    requires LockInv(s) && StartInv(env, s) && r in s.threads && StepRequest(env, s, r, act, s')
    requires x in s'.threads && x != r
    ensures StartOk(env, s', x)
  {
    StepThreads(env, s, r, act, s');
    StepDirs(env, s, r, act, s');
    assert StartOk(env, s, x);
    var ev := EventOf(env, s, r, act);
    EventShape(env, s, r, act);
    StepTrace(env, s, r, act, s');
    if ev.SetTo? && Within(s.threads[x]) && s.threads[x].key == ev.key {
      MutualExclusion(s, r, x);
    }
  }

  lemma StartOfMover(env: Env, s: State, r: Id, act: Act, s': State)
    requires StartInv(env, s) && r in s.threads && StepRequest(env, s, r, act, s') && r in s'.threads
    ensures StartOk(env, s', r)
  {
    assert StartOk(env, s, r);
    StepThreads(env, s, r, act, s');
  }

  lemma StartStep(env: Env, s: State, a: Action, s': State)
    requires LockInv(s) && StartInv(env, s) && Step(env, s, a, s')
    ensures StartInv(env, s')
  {
    forall x | x in s'.threads ensures StartOk(env, s', x) {
      if a.Do? && x == a.r {
        StartOfMover(env, s, a.r, a.act, s');
      } else if a.Do? {
        StartOfOther(env, s, a.r, a.act, s', x);
      } else if x in s.threads {
        assert StartOk(env, s, x);
      }
    }
  }

  lemma {:induction false} LocksInRun(env: Env, run: seq<State>, i: nat)
    requires IsRun(env, run) && i < |run|
    ensures LockInv(run[i]) && TraceInv(env, run[i]) && StartInv(env, run[i])
  {
    if i > 0 {
      LocksInRun(env, run, i - 1);
      assert NextAt(env, run, i - 1);
      var a :| Step(env, run[i - 1], a, run[i]);
      LockStep(env, run[i - 1], a, run[i]);
      TraceStep(env, run[i - 1], a, run[i]);
      StartStep(env, run[i - 1], a, run[i]);
    }
  }

  /** In every run, the locked sections of a session key follow one another, everything a request does with its
      session happens inside its own section, and each section starts in the directory set by the last completed
      setting request of that key, or in the workspace root when there is none or it is gone. */
  lemma SectionsAreSerial(env: Env, s: State)
    requires Reachable(env, s)
    ensures OrderlyTrace(env, s.trace)
    ensures forall r, x :: r in s.threads && x in s.threads && Together(s.threads[r], s.threads[x]) ==> r == x
  {
    var run :| IsRun(env, run) && run[|run| - 1] == s;
    LocksInRun(env, run, |run| - 1);
    forall r, x | r in s.threads && x in s.threads && Together(s.threads[r], s.threads[x])
      ensures r == x
    {
      MutualExclusion(s, r, x);
    }
  }
}
