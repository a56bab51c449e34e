/** What a hit shows and what it leaves behind, compared with executing the command afresh
    (runCommand in internal/agent/server.go). */
module RunHits {
  import opened Numerals
  import opened RunProtocol
  import opened RunSessions
  import opened RunCache
  import SessionStore

  // ---------------------------------------------------------------------
  // A request whose scope has entries is where its session is
  // ---------------------------------------------------------------------

  ghost predicate ScopeCached(s: State, scope: string) {
    scope != "" && exists k :: k in s.cache.entries && k.scope == scope
  }

  /** What the request has read about its session's directory still holds, if its scope has an entry. */
  ghost predicate HomeOk(env: Env, s: State, r: Id)
    requires r in s.threads
  {
    var t := s.threads[r];
    (t.phase.Located? || t.phase.Resolved?) && ScopeCached(s, Scope(t.gpt, t.key)) ==>
      && t.phase.start == CurrentDir(env, s.world, s.dirs, t.key)
      && (t.phase.Resolved? ==> env.isDir(s.world, t.phase.workdir))
  }

  ghost predicate HomeInv(env: Env, s: State) {
    Quiescent(s) ==> forall r :: r in s.threads ==> HomeOk(env, s, r)
  }

  lemma ScopeWasCached(env: Env, s: State, r: Id, act: Act, s': State, x: Id)
    requires LockInv(s) && r in s.threads && StepRequest(env, s, r, act, s') && !Flushes(act)
    requires x in s.threads && x != r && Within(s.threads[x])
    requires ScopeCached(s', Scope(s.threads[x].gpt, s.threads[x].key))
    ensures ScopeCached(s, Scope(s.threads[x].gpt, s.threads[x].key))
  {
    var t, u := s.threads[r], s.threads[x];
    var k :| k in s'.cache.entries && k.scope == Scope(u.gpt, u.key);
    if act.Store? {
      StepClock(env, s, r, act, s');
      if Puts(s, r, k) {
        SectionStepWithin(env, s, r, act, s');
        assert LockOfThread(s, r) && LockOfThread(s, x);
        ScopeFixesKey(t.gpt, t.key, u.gpt, u.key);
        MutualExclusion(s, r, x);
      } else {
        KeptByStore(env, s, r, act.now, act.after, s', k);
      }
    } else {
      StepEntries(env, s, r, act, s');
    }
  }

  /** Nobody else sets the directory of a session while a request is in its section. */
  lemma DirectoryStays(env: Env, s: State, r: Id, act: Act, s': State, x: Id)
    requires LockInv(s) && r in s.threads && StepRequest(env, s, r, act, s') && s'.world == s.world
    requires x in s.threads && x != r && Within(s.threads[x]) && s.threads[x].key != ""
    ensures CurrentDir(env, s'.world, s'.dirs, s.threads[x].key) == CurrentDir(env, s.world, s.dirs, s.threads[x].key)
  {
    StepDirs(env, s, r, act, s');
    EventShape(env, s, r, act);
    StepTrace(env, s, r, act, s');
    if EventOf(env, s, r, act).SetTo? && s.threads[r].key == s.threads[x].key {
      MutualExclusion(s, r, x);
    }
  }

  lemma HomeOfOther(env: Env, s: State, r: Id, act: Act, s': State, x: Id)
    requires LockInv(s) && HomeInv(env, s) && r in s.threads && StepRequest(env, s, r, act, s')
    requires Quiescent(s) && s'.world == s.world && !Flushes(act) && x in s'.threads && x != r
    ensures HomeOk(env, s', x)
  {
    StepThreads(env, s, r, act, s');
    assert HomeOk(env, s, x);
    var t := s.threads[x];
    if (t.phase.Located? || t.phase.Resolved?) && ScopeCached(s', Scope(t.gpt, t.key)) {
      ScopeWasCached(env, s, r, act, s', x);
      DirectoryStays(env, s, r, act, s', x);
    }
  }

  lemma HomeOfMover(env: Env, s: State, r: Id, act: Act, s': State)
    requires r in s.threads && HomeOk(env, s, r) && StepRequest(env, s, r, act, s') && r in s'.threads
    ensures HomeOk(env, s', r)
  {
    StepThreads(env, s, r, act, s');
  }

  lemma HomeStep(env: Env, s: State, a: Action, s': State)
    requires LockInv(s) && HomeInv(env, s) && Step(env, s, a, s')
    ensures HomeInv(env, s')
  {
    if Quiescent(s') {
      forall x | x in s'.threads ensures HomeOk(env, s', x) {
        if a.Do? {
          StepEpoch(env, s, a.r, a.act, s');
          if !Flushes(a.act) {
            QuiescentBefore(env, s, a.r, a.act, s');
            if x == a.r {
              HomeOfMover(env, s, x, a.act, s');
            } else {
              HomeOfOther(env, s, a.r, a.act, s', x);
            }
          }
        } else {
          QuiescentBeforeArrival(env, s, a, s');
          if x in s.threads {
            assert HomeOk(env, s, x);
          }
        }
      }
    }
  }

  lemma QuiescentBeforeArrival(env: Env, s: State, a: Action, s': State)
    requires Step(env, s, a, s') && !a.Do? && Quiescent(s')
    ensures Quiescent(s)
  {
    forall x | x in s.threads ensures !Changing(s.threads[x]) {
      assert x in s'.threads && !Changing(s'.threads[x]);
    }
  }

  lemma {:induction false} HomeInRun(env: Env, run: seq<State>, i: nat)
    requires IsRun(env, run) && i < |run|
    ensures HomeInv(env, run[i])
  {
    if i > 0 {
      HomeInRun(env, run, i - 1);
      LocksInRun(env, run, i - 1);
      assert NextAt(env, run, i - 1);
      var a :| Step(env, run[i - 1], a, run[i]);
      HomeStep(env, run[i - 1], a, run[i]);
    }
  }

  // ---------------------------------------------------------------------
  // Main results
  // ---------------------------------------------------------------------

  ghost predicate IsHit(env: Env, s: State, r: Id, act: Act) {
    r in s.threads && s.threads[r].phase.Resolved? && act.Lookup? && EventOf(env, s, r, act).Hit?
  }

  /** At a hit in a quiescent state, the command's directory exists, and without an explicit workdir it is the one
      the session is in now: what has changed since the request read it would have emptied the cache. */
  lemma HitIsAtHome(env: Env, s: State, r: Id, act: Act, s': State)
    requires Reachable(env, s) && Quiescent(s) && IsHit(env, s, r, act) && StepRequest(env, s, r, act, s')
    ensures var t := s.threads[r];
            && t.key != "" && env.isDir(s.world, t.phase.workdir)
            && t.phase.start == CurrentDir(env, s.world, s.dirs, t.key)
            && t.phase.workdir == Target(env, t.phase.start, t.req.workdir)
  {
    var run :| IsRun(env, run) && run[|run| - 1] == s;
    LocksInRun(env, run, |run| - 1);
    HomeInRun(env, run, |run| - 1);
    assert StartOk(env, s, r) && HomeOk(env, s, r);
    var k := CacheKey(s.threads[r], s.threads[r].phase.workdir);
    assert k in s.cache.entries && k.scope == Scope(s.threads[r].gpt, s.threads[r].key);
  }

  /** A hit in a quiescent state shows the exit code, output and directory that a fresh execution would show. */
  lemma HitShowsFreshOutcome(env: Env, s: State, r: Id, act: Act, s': State)
    requires Reachable(env, s) && s.epoch < TWO_64 && Quiescent(s)
    requires IsHit(env, s, r, act) && StepRequest(env, s, r, act, s')
    ensures s'.threads[r].phase.Replied? && s'.threads[r].phase.reply.Some?
    ensures var t := s.threads[r];
            var again := Afresh(env, s.world, Scope(t.gpt, t.key), t.phase.workdir, t.req);
            Visible(s'.threads[r].phase.reply.value) == again && again.workdir == t.phase.workdir
  {
    ReachableInv(env, s);
    var t := s.threads[r];
    assert EntryMatches(env, s, CacheKey(t, t.phase.workdir));
  }

  /** It also leaves the session in the directory where the fresh execution would leave it, exactly when the
      command's directory is the one the session is already in. So a hit for a request with an explicit workdir
      elsewhere reports a directory that it does not persist. (The empty path never is a resolved directory.) */
  lemma HitKeepsSessionDir(env: Env, s: State, r: Id, act: Act, s': State)
    requires Reachable(env, s) && Quiescent(s) && IsHit(env, s, r, act) && StepRequest(env, s, r, act, s')
    ensures var t := s.threads[r];
            CurrentDir(env, s'.world, s'.dirs, t.key) ==
            CurrentDir(env, s.world, SessionStore.WithDir(s.dirs, t.key, t.phase.workdir), t.key) <==>
            t.phase.workdir == "" || t.phase.workdir == CurrentDir(env, s.world, s.dirs, t.key)
  {
    HitIsAtHome(env, s, r, act, s');
  }

  /** A request without an explicit workdir is therefore answered from the cache exactly as a fresh execution would
      answer it and with the same next session directory. */
  lemma HitWithoutWorkdirIsTransparent(env: Env, s: State, r: Id, act: Act, s': State)
    requires Reachable(env, s) && s.epoch < TWO_64 && Quiescent(s)
    requires IsHit(env, s, r, act) && StepRequest(env, s, r, act, s') && s.threads[r].req.workdir == ""
    ensures s'.threads[r].phase.Replied? && s'.threads[r].phase.reply.Some?
    ensures var t := s.threads[r];
            var again := Afresh(env, s.world, Scope(t.gpt, t.key), t.phase.workdir, t.req);
            && Visible(s'.threads[r].phase.reply.value) == again
            && CurrentDir(env, s'.world, s'.dirs, t.key) ==
               CurrentDir(env, s.world, SessionStore.WithDir(s.dirs, t.key, again.workdir), t.key)
  {
    HitShowsFreshOutcome(env, s, r, act, s');
    HitIsAtHome(env, s, r, act, s');
  }
}
