/** What the steps of a request do, in terms of its own fields, and what the trace says about each request
    (runCommand in internal/agent/server.go). */
module RunRequests {
  import opened Wrappers
  import opened Numerals
  import opened Caching
  import opened RunProtocol
  import opened RunSessions
  import opened RunCache

  // ---------------------------------------------------------------------
  // Single steps
  // ---------------------------------------------------------------------

  /** A section starts in the directory saved under the session key if there is one and it exists, and in the
      workspace root otherwise. */
  lemma StartsInSavedDirectory(env: Env, s: State, r: Id, s': State)
    requires r in s.threads && StepRequest(env, s, r, Locate, s')
    ensures var key := s.threads[r].key;
            s'.threads[r].phase ==
            Located(if key != "" && key in s.dirs && s.dirs[key] != "" && env.isDir(s.world, s.dirs[key])
                    then s.dirs[key] else env.fallback)
  {
  }

  /** The command runs there or in the directory that the request asks for, and only if that exists. */
  lemma RunsWhereAsked(env: Env, s: State, r: Id, s': State)
    requires r in s.threads && StepRequest(env, s, r, Resolve, s')
    ensures var t := s.threads[r];
            var workdir := if t.req.workdir == "" then t.phase.start else env.join(t.phase.start, t.req.workdir);
            s'.threads[r].phase ==
            if env.isDir(s.world, workdir) then Resolved(t.phase.start, workdir) else Replied(None)
  {
  }

  /** A request with a lifetime looks up if it has a session identity and bypasses the cache otherwise; one without a
      lifetime invalidates. */
  lemma ChoosesPath(env: Env, s: State, r: Id, act: Act, s': State)
    requires r in s.threads && StepRequest(env, s, r, act, s') && s.threads[r].phase.Resolved?
    ensures var t := s.threads[r];
            && (act.Lookup? <==> t.req.ttlSeconds > 0 && t.key != "")
            && (act.Bypass? <==> t.req.ttlSeconds > 0 && t.key == "")
            && (act.FlushBefore? <==> t.req.ttlSeconds == 0)
            && (act.Bypass? ==> s'.cache == s.cache)
  {
  }

  /** Each of the two invalidations of an uncached request empties the cache and moves its generation. */
  lemma InvalidationEmpties(env: Env, s: State, r: Id, act: Act, s': State)
    requires r in s.threads && StepRequest(env, s, r, act, s') && (act == FlushBefore || act == FlushAfter)
    ensures s'.cache.entries == map[] && s'.cache.generation == (s.cache.generation + 1) % 0x1_0000_0000_0000_0000
    ensures s'.trace == s.trace + [Flushed(r, act == FlushBefore)]
    ensures act == FlushBefore ==> s.threads[r].req.ttlSeconds == 0 && s'.threads[r].phase.Prepared?
  {
  }

  /** A hit answers with the stored response, marked as a hit, with its age in milliseconds and no duration. */
  lemma HitMarksItsAnswer(env: Env, s: State, r: Id, now: int, s': State)
    requires r in s.threads && StepRequest(env, s, r, Lookup(now), s') && EventOf(env, s, r, Lookup(now)).Hit?
    ensures var t := s.threads[r];
            var k := CacheKey(t, t.phase.workdir);
            k in s.cache.entries && now < s.cache.entries[k].expiresAt && s'.threads[r].phase.Replied? &&
            s'.threads[r].phase.reply.Some? &&
            var reply, e := s'.threads[r].phase.reply.value, s.cache.entries[k];
            && reply.cacheHit && reply.durationMs == 0
            && reply.cacheAgeMs * 1_000_000 <= now - e.storedAt < (reply.cacheAgeMs + 1) * 1_000_000
            && reply.(cacheHit := e.response.cacheHit, durationMs := e.response.durationMs,
                      cacheAgeMs := e.response.cacheAgeMs) == e.response
  {
  }

  /** A request whose command ran leaves its session in the command's final directory. */
  lemma AnswerSetsDirectory(env: Env, s: State, r: Id, act: Act, s': State)
    requires r in s.threads && StepRequest(env, s, r, act, s') && (act == Persist || act == PersistUncached)
    ensures s.threads[r].phase.Executed? || s.threads[r].phase.Exited?
    ensures var t := s.threads[r];
            s'.dirs == if t.key == "" || t.phase.resp.workdir == "" then s.dirs
                       else s.dirs[t.key := t.phase.resp.workdir]
  {
  }

  /** What the cache may keep: a whole successful answer of a command that stayed in its directory. */
  predicate Complete(resp: Response, workdir: string) {
    && resp.exitCode == 0 && !resp.timedOut && !resp.truncated && resp.attachments == []
    && resp.workdir == workdir
  }

  /** A cached request offers its answer to the cache exactly if it is of that kind and has a session identity. */
  lemma OffersCompleteAnswers(env: Env, s: State, r: Id, act: Act, s': State)
    requires r in s.threads && StepRequest(env, s, r, act, s') && s.threads[r].phase.Persisted?
    ensures var t := s.threads[r];
            act.Store? <==> Scope(t.gpt, t.key) != "" && Complete(t.phase.resp, t.phase.workdir)
  {
  }

  // ---------------------------------------------------------------------
  // Cached answers
  // ---------------------------------------------------------------------

  ghost predicate EntryComplete(s: State, k: Key)
    requires k in s.cache.entries
  {
    k.scope != "" && Complete(s.cache.entries[k].response, k.workdir)
  }

  lemma CompleteStep(env: Env, s: State, a: Action, s': State)
    requires Step(env, s, a, s') && forall k :: k in s.cache.entries ==> EntryComplete(s, k)
    ensures forall k :: k in s'.cache.entries ==> EntryComplete(s', k)
  {
    forall k | k in s'.cache.entries ensures EntryComplete(s', k) {
      if a.Do? && a.act.Store? {
        CompleteAfterStore(env, s, a.r, a.act, s', k);
      } else if a.Do? {
        StepEpoch(env, s, a.r, a.act, s');
        if !Flushes(a.act) {
          StepEntries(env, s, a.r, a.act, s');
          assert EntryComplete(s, k);
        }
      } else {
        assert EntryComplete(s, k);
      }
    }
  }

  lemma CompleteAfterStore(env: Env, s: State, r: Id, act: Act, s': State, k: Key)
    requires r in s.threads && StepRequest(env, s, r, act, s') && act.Store? && k in s'.cache.entries
    requires forall x :: x in s.cache.entries ==> EntryComplete(s, x)
    ensures EntryComplete(s', k)
  {
    var t := s.threads[r];
    StoreEntries(env, s, r, act.now, act.after, s');
    if Puts(s, r, k) {
      KeyFields(Scope(t.gpt, t.key), t.phase.workdir, t.req);
    } else {
      assert EntryComplete(s, k);
    }
  }

  // ---------------------------------------------------------------------
  // The keys in the trace
  // ---------------------------------------------------------------------

  /** The key of a lookup or store is that of the request that made it. */
  ghost predicate KeyIsOwn(s: State, m: nat)
    requires m < |s.trace|
  {
    var ev := s.trace[m];
    ev.Missed? || ev.Hit? || ev.Stored? ==>
      && ev.r in s.threads
      && var t := s.threads[ev.r];
         t.key != "" && exists workdir :: ev.cacheKey == KeyOf(Scope(t.gpt, t.key), workdir, t.req)
  }

  ghost predicate KeysInv(s: State) {
    forall m :: 0 <= m < |s.trace| ==> KeyIsOwn(s, m)
  }

  lemma KeysStep(env: Env, s: State, a: Action, s': State)
    requires KeysInv(s) && Step(env, s, a, s')
    ensures KeysInv(s')
  {
    forall m | 0 <= m < |s'.trace| ensures KeyIsOwn(s', m) {
      if m < |s.trace| {
        OldKeyIsOwn(env, s, a, s', m);
      } else if a.Do? {
        NewKeyIsOwn(env, s, a.r, a.act, s');
      }
    }
  }

  lemma RequestsStay(env: Env, s: State, a: Action, s': State)
    requires Step(env, s, a, s')
    ensures forall r :: r in s.threads ==> r in s'.threads && s'.threads[r].req == s.threads[r].req
    ensures forall r :: r in s.threads ==> s'.threads[r].gpt == s.threads[r].gpt
    ensures forall r :: r in s.threads ==> s'.threads[r].key == s.threads[r].key
    ensures |s'.trace| == |s.trace| + 1 && s'.trace[..|s.trace|] == s.trace
  {
  }

  lemma OldKeyIsOwn(env: Env, s: State, a: Action, s': State, m: nat)
    requires KeysInv(s) && Step(env, s, a, s') && m < |s.trace| <= |s'.trace|
    ensures KeyIsOwn(s', m)
  {
    RequestsStay(env, s, a, s');
    assert s'.trace[m] == s'.trace[..|s.trace|][m] == s.trace[m];
    assert KeyIsOwn(s, m);
  }

  lemma NewKeyIsOwn(env: Env, s: State, r: Id, act: Act, s': State)
    requires r in s.threads && StepRequest(env, s, r, act, s')
    ensures |s'.trace| == |s.trace| + 1 && KeyIsOwn(s', |s.trace|)
  {
    var t, ev := s.threads[r], EventOf(env, s, r, act);
    StepThreads(env, s, r, act, s');
    StepTrace(env, s, r, act, s');
    if ev.Missed? || ev.Hit? || ev.Stored? {
      assert ev.cacheKey == KeyOf(Scope(t.gpt, t.key), t.phase.workdir, t.req);
    }
  }

  // ---------------------------------------------------------------------
  // Uncached requests
  // ---------------------------------------------------------------------

  ghost predicate FlushedIn(trace: seq<Event>, r: Id, before: bool, from: nat, end: nat)
    requires end <= |trace|
  {
    exists f :: from <= f < end && trace[f] == Flushed(r, before)
  }

  /** Every change that the command of r made lies after its first invalidation and, unless it is still running,
      before its second one. */
  ghost predicate ChangeIsFlushed(s: State, m: nat)
    requires m < |s.trace|
  {
    s.trace[m].Mutated? ==>
      && var r := s.trace[m].r;
         && r in s.threads && FlushedIn(s.trace, r, true, 0, m)
         && (!s.threads[r].phase.Running? && !s.threads[r].phase.Ran? ==> FlushedIn(s.trace, r, false, m, |s.trace|))
  }

  predicate Started(t: Thread) {
    t.phase.Prepared? || t.phase.Running? || t.phase.Ran?
  }

  ghost predicate FlushInv(s: State) {
    && (forall r :: r in s.threads && Started(s.threads[r]) ==> FlushedIn(s.trace, r, true, 0, |s.trace|))
    && (forall m :: 0 <= m < |s.trace| ==> ChangeIsFlushed(s, m))
  }

  lemma FlushedLonger(trace: seq<Event>, ev: Event, r: Id, before: bool, from: nat, end: nat)
    requires end <= |trace| && FlushedIn(trace, r, before, from, end)
    ensures FlushedIn(trace + [ev], r, before, from, end) && FlushedIn(trace + [ev], r, before, from, |trace| + 1)
  {
    var f :| from <= f < end && trace[f] == Flushed(r, before);
    assert (trace + [ev])[f] == Flushed(r, before);
  }

  /** How the phases of an uncached request follow one another. */
  lemma UncachedPhases(env: Env, s: State, r: Id, act: Act, s': State)
    requires r in s.threads && StepRequest(env, s, r, act, s')
    ensures r in s'.threads && s'.trace == s.trace + [EventOf(env, s, r, act)]
    ensures Started(s'.threads[r]) && !act.FlushBefore? ==> Started(s.threads[r])
    ensures EventOf(env, s, r, act).Mutated? ==> s.threads[r].phase.Running? && s'.threads[r].phase.Running?
    ensures EventOf(env, s, r, act).Mutated? ==> EventOf(env, s, r, act).r == r
    ensures s.threads[r].phase.Running? || s.threads[r].phase.Ran? ==>
              s'.threads[r].phase.Running? || s'.threads[r].phase.Ran? || act.FlushAfter?
    ensures act.FlushBefore? || act.FlushAfter? ==> EventOf(env, s, r, act) == Flushed(r, act.FlushBefore?)
  {
  }

  lemma StartedAfter(env: Env, s: State, r: Id, act: Act, s': State, x: Id)
    requires FlushInv(s) && r in s.threads && StepRequest(env, s, r, act, s')
    requires x in s'.threads && Started(s'.threads[x])
    ensures FlushedIn(s'.trace, x, true, 0, |s'.trace|)
  {
    StepThreads(env, s, r, act, s');
    UncachedPhases(env, s, r, act, s');
    if x == r && act.FlushBefore? {
      assert s'.trace[|s.trace|] == Flushed(r, true);
    } else {
      FlushedLonger(s.trace, EventOf(env, s, r, act), x, true, 0, |s.trace|);
    }
  }

  lemma ChangeAfter(env: Env, s: State, r: Id, act: Act, s': State, m: nat)
    requires FlushInv(s) && r in s.threads && StepRequest(env, s, r, act, s') && m < |s.trace| < |s'.trace|
    ensures ChangeIsFlushed(s', m)
  {
    StepThreads(env, s, r, act, s');
    UncachedPhases(env, s, r, act, s');
    assert ChangeIsFlushed(s, m);
    var ev := EventOf(env, s, r, act);
    if s.trace[m].Mutated? {
      var x := s.trace[m].r;
      FlushedLonger(s.trace, ev, x, true, 0, m);
      if !s'.threads[x].phase.Running? && !s'.threads[x].phase.Ran? {
        if x == r && act.FlushAfter? {
          assert s'.trace[|s.trace|] == Flushed(r, false);
        } else {
          FlushedLonger(s.trace, ev, x, false, m, |s.trace|);
        }
      }
    }
  }

  lemma NewChange(env: Env, s: State, r: Id, act: Act, s': State)
    requires FlushInv(s) && r in s.threads && StepRequest(env, s, r, act, s')
    ensures |s'.trace| == |s.trace| + 1 && ChangeIsFlushed(s', |s.trace|)
  {
    UncachedPhases(env, s, r, act, s');
    if EventOf(env, s, r, act).Mutated? {
      FlushedLonger(s.trace, EventOf(env, s, r, act), r, true, 0, |s.trace|);
    }
  }

  lemma FlushStep(env: Env, s: State, a: Action, s': State)
    requires FlushInv(s) && Step(env, s, a, s')
    ensures FlushInv(s')
  {
    if a.Do? {
      UncachedPhases(env, s, a.r, a.act, s');
      forall x | x in s'.threads && Started(s'.threads[x]) ensures FlushedIn(s'.trace, x, true, 0, |s'.trace|) {
        StartedAfter(env, s, a.r, a.act, s', x);
      }
      forall m | 0 <= m < |s'.trace| ensures ChangeIsFlushed(s', m) {
        if m < |s.trace| {
          ChangeAfter(env, s, a.r, a.act, s', m);
        } else {
          NewChange(env, s, a.r, a.act, s');
        }
      }
    } else {
      FlushedWithout(env, s, a, s');
    }
  }

  lemma FlushedWithout(env: Env, s: State, a: Action, s': State)
    requires FlushInv(s) && Step(env, s, a, s') && !a.Do?
    ensures FlushInv(s')
  {
    forall x | x in s'.threads && Started(s'.threads[x]) ensures FlushedIn(s'.trace, x, true, 0, |s'.trace|) {
      FlushedLonger(s.trace, Quiet, x, true, 0, |s.trace|);
    }
    forall m | 0 <= m < |s'.trace| ensures ChangeIsFlushed(s', m) {
      if m < |s.trace| {
        assert ChangeIsFlushed(s, m);
        if s.trace[m].Mutated? {
          var r := s.trace[m].r;
          FlushedLonger(s.trace, Quiet, r, true, 0, m);
          if !s.threads[r].phase.Running? && !s.threads[r].phase.Ran? {
            FlushedLonger(s.trace, Quiet, r, false, m, |s.trace|);
          }
        }
      }
    }
  }

  // ---------------------------------------------------------------------
  // Main results
  // ---------------------------------------------------------------------

  ghost predicate ArrivedValid(t: Thread) {
    t.req.ttlSeconds >= 0 && Wrap64(t.req.ttlSeconds * SECOND) <= 60 * SECOND &&
    (t.req.ttlSeconds > 0 ==> t.req.fileRefs == 0)
  }

  /** Requests with a negative lifetime, one over a minute, or a lifetime and uploads are refused on arrival. */
  lemma {:induction false} OnlyValidRequestsArrive(env: Env, run: seq<State>, i: nat)
    requires IsRun(env, run) && i < |run|
    ensures forall r :: r in run[i].threads ==> ArrivedValid(run[i].threads[r])
  {
    if i > 0 {
      OnlyValidRequestsArrive(env, run, i - 1);
      assert NextAt(env, run, i - 1);
      var a :| Step(env, run[i - 1], a, run[i]);
      RequestsStay(env, run[i - 1], a, run[i]);
    }
  }

  lemma {:induction false} RequestsInRun(env: Env, run: seq<State>, i: nat)
    requires IsRun(env, run) && i < |run|
    ensures KeysInv(run[i]) && FlushInv(run[i])
    ensures forall k :: k in run[i].cache.entries ==> EntryComplete(run[i], k)
  {
    if i > 0 {
      RequestsInRun(env, run, i - 1);
      assert NextAt(env, run, i - 1);
      var a :| Step(env, run[i - 1], a, run[i]);
      KeysStep(env, run[i - 1], a, run[i]);
      FlushStep(env, run[i - 1], a, run[i]);
      CompleteStep(env, run[i - 1], a, run[i]);
    }
  }

  /** The two requests would run the same command in the same directory of the same session. */
  predicate SameCommand(t: Thread, u: Thread) {
    && t.key == u.key && t.gpt == u.gpt
    && t.req.command == u.req.command && t.req.stdin == u.req.stdin
    && t.req.timeoutSeconds == u.req.timeoutSeconds && t.req.ttlSeconds == u.req.ttlSeconds
  }

  /** The request whose response a hit answers with asked for what the request that hits asks for. */
  lemma HitAnswersTheSameRequest(env: Env, s: State, h: nat)
    requires Reachable(env, s) && s.epoch < TWO_64 && h < |s.trace| && s.trace[h].Hit?
    ensures s.trace[h].r in s.threads
    ensures exists r: Id, l: nat, f: nat, st: nat ::
              && Provenance(s.trace, h, r, l, f, st)
              && r in s.threads && SameCommand(s.threads[r], s.threads[s.trace[h].r])
  {
    var run :| IsRun(env, run) && run[|run| - 1] == s;
    RequestsInRun(env, run, |run| - 1);
    LocksInRun(env, run, |run| - 1);
    HitsAreNeverStale(env, s, h);
    var r: Id, l: nat, f: nat, st: nat :| Provenance(s.trace, h, r, l, f, st);
    SameKeySameCommand(env, s, l, h);
  }

  lemma SameKeySameCommand(env: Env, s: State, l: nat, h: nat)
    requires LockInv(s) && KeysInv(s) && Reachable(env, s) && l < |s.trace| && h < |s.trace|
    requires s.trace[l].Missed? && s.trace[h].Hit? && s.trace[l].cacheKey == s.trace[h].cacheKey
    ensures s.trace[l].r in s.threads && s.trace[h].r in s.threads
    ensures SameCommand(s.threads[s.trace[l].r], s.threads[s.trace[h].r])
  {
    assert KeyIsOwn(s, l) && KeyIsOwn(s, h);
    var t, u := s.threads[s.trace[l].r], s.threads[s.trace[h].r];
    var a :| s.trace[l].cacheKey == KeyOf(Scope(t.gpt, t.key), a, t.req);
    var b :| s.trace[h].cacheKey == KeyOf(Scope(u.gpt, u.key), b, u.req);
    KeysDistinguish(Scope(t.gpt, t.key), a, t.req, Scope(u.gpt, u.key), b, u.req);
    assert LockOfThread(s, s.trace[l].r) && LockOfThread(s, s.trace[h].r);
    ScopeFixesKey(t.gpt, t.key, u.gpt, u.key);
  }

  /** The cache only ever holds whole successful answers of commands that stayed in their directory. */
  lemma OnlyCompleteAnswersAreCached(env: Env, s: State, k: Key)
    requires Reachable(env, s) && k in s.cache.entries
    ensures k.scope != "" && Complete(s.cache.entries[k].response, k.workdir)
  {
    var run :| IsRun(env, run) && run[|run| - 1] == s;
    RequestsInRun(env, run, |run| - 1);
    assert EntryComplete(s, k);
  }

  /** Whatever the command of an uncached request changes, the cache was emptied before it for this request, and is
      emptied after it before the request goes on. */
  lemma ChangesAreEnclosed(env: Env, s: State, m: nat)
    requires Reachable(env, s) && m < |s.trace| && s.trace[m].Mutated?
    ensures s.trace[m].r in s.threads
    ensures exists f :: 0 <= f < m && s.trace[f] == Flushed(s.trace[m].r, true)
    ensures var t := s.threads[s.trace[m].r];
            t.phase.Running? || t.phase.Ran? ||
            exists f :: m <= f < |s.trace| && s.trace[f] == Flushed(s.trace[m].r, false)
  {
    var run :| IsRun(env, run) && run[|run| - 1] == s;
    RequestsInRun(env, run, |run| - 1);
    assert ChangeIsFlushed(s, m);
  }
}
