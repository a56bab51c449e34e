/** The command cache in every run: no stale answer, entries that match the world, bounded ages. */
module RunCache {
  import opened Numerals
  import opened Caching
  import opened RunProtocol
  import opened RunSessions
  import opened Strings

  /** A request between its missed lookup and its store. */
  predicate Pending(t: Thread) {
    (t.phase.Executing? || t.phase.Executed? || t.phase.Persisted?) && Scope(t.gpt, t.key) != ""
  }

  predicate Answered(t: Thread) {
    Pending(t) && !t.phase.Executing?
  }

  predicate Flushes(act: Act) {
    act.FlushBefore? || act.FlushAfter?
  }

  // ---------------------------------------------------------------------
  // What a step does to the cache and to the tickets
  // ---------------------------------------------------------------------

  lemma StepEpoch(env: Env, s: State, r: Id, act: Act, s': State)
    requires r in s.threads && StepRequest(env, s, r, act, s')
    ensures if Flushes(act) then s'.epoch == s.epoch + 1 && s'.cache == Invalidated(s.cache)
            else s'.epoch == s.epoch && s'.cache.generation == s.cache.generation
    ensures EventOf(env, s, r, act).Flushed? <==> Flushes(act)
  {
  }

  lemma StepEntries(env: Env, s: State, r: Id, act: Act, s': State)
    requires r in s.threads && StepRequest(env, s, r, act, s') && !act.Store? && !Flushes(act)
    ensures s'.origin == s.origin
    ensures forall k :: k in s'.cache.entries ==> k in s.cache.entries && s'.cache.entries[k] == s.cache.entries[k]
  {
  }

  lemma InsertedSubset(c: Cache, k: Key, e: Entry, now: int, c': Cache)
    requires Inserted(c, k, e, now, c')
    ensures forall x :: x in c'.entries ==>
                          if x == k then c'.entries[x] == e else x in c.entries && c'.entries[x] == c.entries[x]
  {
  }

  lemma StoreEntries(env: Env, s: State, r: Id, now: int, after: Cache, s': State)
    requires r in s.threads && StepRequest(env, s, r, Store(now, after), s')
    ensures var t := s.threads[r];
            var k := CacheKey(t, t.phase.workdir);
            if Accepts(s.cache, Ttl(t.req), t.phase.ticket.generation) then
              && s'.origin == s.origin[k := Origin(r, t.phase.ticket.lookedAt, t.phase.ticket.finishedAt, |s.trace|)]
              && forall x :: x in s'.cache.entries ==>
                   if x == k then s'.cache.entries[x] == NewEntry(t.phase.resp, Ttl(t.req), now)
                   else x in s.cache.entries && s'.cache.entries[x] == s.cache.entries[x]
            else s'.origin == s.origin && s'.cache == s.cache
  {
    var t := s.threads[r];
    if Accepts(s.cache, Ttl(t.req), t.phase.ticket.generation) {
      InsertedSubset(s.cache, CacheKey(t, t.phase.workdir), NewEntry(t.phase.resp, Ttl(t.req), now), now, after);
    }
  }

  /** A ticket is issued by a missed lookup and then kept, apart from the mark of the finished execution. */
  lemma StepTicket(env: Env, s: State, r: Id, act: Act, s': State)
    requires r in s.threads && StepRequest(env, s, r, act, s') && r in s'.threads && Pending(s'.threads[r])
    ensures var t, t' := s.threads[r], s'.threads[r];
            if act.Lookup? then
              && t.phase.Resolved? && t'.phase.Executing? && t'.phase.workdir == t.phase.workdir
              && t'.phase.ticket == Ticket(s.cache.generation, s.epoch, s.version, |s.trace|, 0)
              && EventOf(env, s, r, act) == Missed(r, t.key, CacheKey(t, t.phase.workdir))
            else
              && (act.FinishRead? || act.Persist?)
              && Pending(t) && t'.phase.workdir == t.phase.workdir
              && (act.FinishRead? ==>
                    && t.phase.Executing? && t'.phase.Executed?
                    && t'.phase.ticket == t.phase.ticket.(finishedAt := |s.trace|)
                    && EventOf(env, s, r, act) == Finished(r, t'.phase.resp)
                    && (t.phase.ticket.version == s.version && Completed(t'.phase.resp) ==>
                          Visible(t'.phase.resp) == Afresh(env, s.world, Scope(t.gpt, t.key), t.phase.workdir, t.req)))
              && (act.Persist? ==>
                    Answered(t) && Answered(t') && t'.phase.ticket == t.phase.ticket && t'.phase.resp == t.phase.resp)
  {
  }

  // ---------------------------------------------------------------------
  // Generations
  // ---------------------------------------------------------------------

  ghost predicate EpochInv(s: State) {
    && s.cache.generation == s.epoch % TWO_64
    && forall r :: r in s.threads && Pending(s.threads[r]) ==>
         var ticket := s.threads[r].phase.ticket;
         ticket.epoch <= s.epoch && ticket.generation == ticket.epoch % TWO_64
  }

  lemma EpochStep(env: Env, s: State, a: Action, s': State)
    requires EpochInv(s) && Step(env, s, a, s')
    ensures EpochInv(s')
  {
    if a.Do? {
      StepEpoch(env, s, a.r, a.act, s');
      StepThreads(env, s, a.r, a.act, s');
      if Pending(s'.threads[a.r]) {
        StepTicket(env, s, a.r, a.act, s');
      }
    }
  }

  /** Before 2^64 invalidations, an accepted store means that nothing was invalidated since the lookup. */
  lemma AcceptedMeansSameEpoch(s: State, r: Id)
    requires EpochInv(s) && s.epoch < TWO_64 && r in s.threads && Pending(s.threads[r])
    requires Accepts(s.cache, Ttl(s.threads[r].req), s.threads[r].phase.ticket.generation)
    ensures s.threads[r].phase.ticket.epoch == s.epoch
  {
  }

  // ---------------------------------------------------------------------
  // Provenance of entries and hits
  // ---------------------------------------------------------------------

  ghost predicate ClearFrom(trace: seq<Event>, from: nat) {
    forall m :: from <= m < |trace| ==> !trace[m].Flushed?
  }

  ghost predicate TicketBacked(s: State, r: Id)
    requires r in s.threads && Pending(s.threads[r])
  {
    var t := s.threads[r];
    var ticket := t.phase.ticket;
    && ticket.lookedAt < |s.trace|
    && s.trace[ticket.lookedAt] == Missed(r, t.key, CacheKey(t, t.phase.workdir))
    && (ticket.epoch == s.epoch ==> ClearFrom(s.trace, ticket.lookedAt))
    && (Answered(t) ==>
          ticket.lookedAt < ticket.finishedAt < |s.trace| && s.trace[ticket.finishedAt] == Finished(r, t.phase.resp))
  }

  /** r looked the key up at l, finished executing it at f and stored the response at st. */
  ghost predicate StoredBy(trace: seq<Event>, k: Key, resp: Response, r: Id, l: nat, f: nat, st: nat) {
    && l < f < st < |trace|
    && trace[l].Missed? && trace[l].r == r && trace[l].cacheKey == k
    && trace[f] == Finished(r, resp)
    && trace[st].Stored? && trace[st].r == r && trace[st].cacheKey == k && trace[st].resp == resp
  }

  /** Nothing was stored under k between st and end. */
  ghost predicate LastStore(trace: seq<Event>, k: Key, st: nat, end: nat)
    requires end <= |trace|
  {
    forall m :: st < m < end && trace[m].Stored? ==> trace[m].cacheKey != k
  }

  ghost predicate EntryBacked(s: State, k: Key)
    requires k in s.cache.entries
  {
    && k in s.origin
    && var o := s.origin[k];
       StoredBy(s.trace, k, s.cache.entries[k].response, o.r, o.lookedAt, o.finishedAt, o.storedAt) &&
       ClearFrom(s.trace, o.lookedAt) && LastStore(s.trace, k, o.storedAt, |s.trace|)
  }

  /** The hit at h answers with a response that was looked up, executed and stored with no invalidation between
      that lookup and the hit. */
  ghost predicate HitBacked(trace: seq<Event>, h: nat)
    requires h < |trace| && trace[h].Hit?
  {
    exists r: Id, l: nat, f: nat, st: nat ::
      StoredBy(trace, trace[h].cacheKey, trace[h].resp, r, l, f, st) && st < h &&
      LastStore(trace, trace[h].cacheKey, st, h) && forall m :: l <= m < h ==> !trace[m].Flushed?
  }

  ghost predicate FreshInv(s: State) {
    && (forall r :: r in s.threads && Pending(s.threads[r]) ==> TicketBacked(s, r))
    && (forall k :: k in s.cache.entries ==> EntryBacked(s, k))
    && (forall h :: 0 <= h < |s.trace| && s.trace[h].Hit? ==> HitBacked(s.trace, h))
  }

  lemma HitStaysBacked(trace: seq<Event>, ev: Event, h: nat)
    requires h < |trace| && trace[h].Hit? && HitBacked(trace, h)
    ensures HitBacked(trace + [ev], h)
  {
    var r: Id, l: nat, f: nat, st: nat :| StoredBy(trace, trace[h].cacheKey, trace[h].resp, r, l, f, st) && st < h &&
                                          LastStore(trace, trace[h].cacheKey, st, h) &&
                                          forall m :: l <= m < h ==> !trace[m].Flushed?;
    var longer := trace + [ev];
    assert StoredBy(longer, longer[h].cacheKey, longer[h].resp, r, l, f, st);
  }

  lemma TicketsStayBacked(env: Env, s: State, r: Id, act: Act, s': State, x: Id)
    requires FreshInv(s) && EpochInv(s) && r in s.threads && StepRequest(env, s, r, act, s')
    requires x in s'.threads && Pending(s'.threads[x])
    ensures TicketBacked(s', x)
  {
    StepThreads(env, s, r, act, s');
    StepTrace(env, s, r, act, s');
    StepEpoch(env, s, r, act, s');
    if x == r {
      StepTicket(env, s, r, act, s');
      if !act.Lookup? {
        assert TicketBacked(s, r);
      }
    } else {
      assert TicketBacked(s, x);
    }
  }

  lemma EntryStaysBacked(s: State, ev: Event, s': State, k: Key)
    requires k in s.cache.entries && EntryBacked(s, k) && s'.trace == s.trace + [ev] && !ev.Flushed?
    requires ev.Stored? ==> ev.cacheKey != k
    requires k in s'.cache.entries && s'.cache.entries[k] == s.cache.entries[k]
    requires k in s'.origin && s'.origin[k] == s.origin[k]
    ensures EntryBacked(s', k)
  {
  }

  lemma NewEntryBacked(env: Env, s: State, r: Id, now: int, after: Cache, s': State)
    requires FreshInv(s) && EpochInv(s) && s.epoch < TWO_64 && r in s.threads
    requires var t := s.threads[r];
             && StepRequest(env, s, r, Store(now, after), s') && Accepts(s.cache, Ttl(t.req), t.phase.ticket.generation)
             && CacheKey(t, t.phase.workdir) in s'.cache.entries
    ensures EntryBacked(s', CacheKey(s.threads[r], s.threads[r].phase.workdir))
  {
    var t := s.threads[r];
    StoreEntries(env, s, r, now, after, s');
    assert TicketBacked(s, r);
    AcceptedMeansSameEpoch(s, r);
  }

  lemma EntriesStayBacked(env: Env, s: State, r: Id, act: Act, s': State, k: Key)
    requires FreshInv(s) && EpochInv(s) && s.epoch < TWO_64 && r in s.threads && StepRequest(env, s, r, act, s')
    requires k in s'.cache.entries
    ensures EntryBacked(s', k)
  {
    var ev := EventOf(env, s, r, act);
    StepTrace(env, s, r, act, s');
    StepEpoch(env, s, r, act, s');
    if act.Store? {
      StoredEntriesBacked(env, s, r, act, s', k);
    } else {
      StepEntries(env, s, r, act, s');
      EntryStaysBacked(s, ev, s', k);
    }
  }

  /** The store of an accepted response puts an entry under this key. */
  predicate Puts(s: State, r: Id, k: Key)
    requires r in s.threads && s.threads[r].phase.Persisted?
  {
    var t := s.threads[r];
    Accepts(s.cache, Ttl(t.req), t.phase.ticket.generation) && k == CacheKey(t, t.phase.workdir)
  }

  lemma KeptByStore(env: Env, s: State, r: Id, now: int, after: Cache, s': State, k: Key)
    requires r in s.threads && StepRequest(env, s, r, Store(now, after), s')
    requires k in s'.cache.entries && !Puts(s, r, k)
    ensures k in s.cache.entries && s'.cache.entries[k] == s.cache.entries[k]
    ensures k in s.origin ==> k in s'.origin && s'.origin[k] == s.origin[k]
  {
    StoreEntries(env, s, r, now, after, s');
  }

  lemma StoredEntriesBacked(env: Env, s: State, r: Id, act: Act, s': State, k: Key)
    requires FreshInv(s) && EpochInv(s) && s.epoch < TWO_64 && r in s.threads && StepRequest(env, s, r, act, s')
    requires act.Store? && k in s'.cache.entries && s'.trace == s.trace + [EventOf(env, s, r, act)]
    requires !EventOf(env, s, r, act).Flushed?
    ensures EntryBacked(s', k)
  {
    if Puts(s, r, k) {
      NewEntryBacked(env, s, r, act.now, act.after, s');
    } else {
      KeptByStore(env, s, r, act.now, act.after, s', k);
      assert EntryBacked(s, k);
      EntryStaysBacked(s, EventOf(env, s, r, act), s', k);
    }
  }

  lemma NewHitBacked(s: State, ev: Event, k: Key)
    requires ev.Hit? && ev.cacheKey == k && k in s.cache.entries && ev.resp == s.cache.entries[k].response
    requires EntryBacked(s, k)
    ensures HitBacked(s.trace + [ev], |s.trace|)
  {
    var o, longer, h := s.origin[k], s.trace + [ev], |s.trace|;
    assert longer[h] == ev;
    assert StoredBy(longer, longer[h].cacheKey, longer[h].resp, o.r, o.lookedAt, o.finishedAt, o.storedAt);
  }

  lemma HitEvent(env: Env, s: State, r: Id, act: Act, s': State)
    requires r in s.threads && StepRequest(env, s, r, act, s') && EventOf(env, s, r, act).Hit?
    ensures var ev := EventOf(env, s, r, act);
            ev.cacheKey in s.cache.entries && ev.resp == s.cache.entries[ev.cacheKey].response
  {
  }

  lemma HitsStayBacked(env: Env, s: State, r: Id, act: Act, s': State, h: nat)
    requires FreshInv(s) && r in s.threads && StepRequest(env, s, r, act, s')
    requires h < |s'.trace| && s'.trace[h].Hit?
    ensures HitBacked(s'.trace, h)
  {
    StepTrace(env, s, r, act, s');
    if h < |s.trace| {
      HitStaysBacked(s.trace, EventOf(env, s, r, act), h);
    } else {
      HitEvent(env, s, r, act, s');
      assert EntryBacked(s, s'.trace[h].cacheKey);
      NewHitBacked(s, s'.trace[h], s'.trace[h].cacheKey);
    }
  }

  lemma FreshAfterRequest(env: Env, s: State, r: Id, act: Act, s': State)
    requires FreshInv(s) && EpochInv(s) && r in s.threads && StepRequest(env, s, r, act, s') && s'.epoch < TWO_64
    ensures FreshInv(s')
  {
    StepEpoch(env, s, r, act, s');
    forall x | x in s'.threads && Pending(s'.threads[x]) ensures TicketBacked(s', x) {
      TicketsStayBacked(env, s, r, act, s', x);
    }
    forall k | k in s'.cache.entries ensures EntryBacked(s', k) {
      EntriesStayBacked(env, s, r, act, s', k);
    }
    forall h | 0 <= h < |s'.trace| && s'.trace[h].Hit? ensures HitBacked(s'.trace, h) {
      HitsStayBacked(env, s, r, act, s', h);
    }
  }

  lemma FreshAfterOther(env: Env, s: State, a: Action, s': State)
    requires FreshInv(s) && Step(env, s, a, s') && !a.Do?
    ensures FreshInv(s')
  {
    forall x | x in s'.threads && Pending(s'.threads[x]) ensures TicketBacked(s', x) {
      assert TicketBacked(s, x);
    }
    forall k | k in s'.cache.entries ensures EntryBacked(s', k) {
      assert EntryBacked(s, k);
    }
    forall h | 0 <= h < |s'.trace| && s'.trace[h].Hit? ensures HitBacked(s'.trace, h) {
      HitStaysBacked(s.trace, Quiet, h);
    }
  }

  lemma FreshStep(env: Env, s: State, a: Action, s': State)
    requires FreshInv(s) && EpochInv(s) && Step(env, s, a, s') && s'.epoch < TWO_64
    ensures FreshInv(s')
  {
    if a.Do? {
      FreshAfterRequest(env, s, a.r, a.act, s');
    } else {
      FreshAfterOther(env, s, a, s');
    }
  }

  // ---------------------------------------------------------------------
  // Entries and the world
  // ---------------------------------------------------------------------

  /** Between the start of its execution and its second invalidation, an uncached request may change the world. */
  predicate Changing(t: Thread) {
    t.phase.Running? || t.phase.Ran?
  }

  /** No command is changing the world, and the agent has not changed it since the latest invalidation. */
  ghost predicate Quiescent(s: State) {
    !s.strayed && forall r :: r in s.threads ==> !Changing(s.threads[r])
  }

  /** What a key says about the requests that have it. */
  lemma KeyFields(scope: string, workdir: string, req: Request)
    ensures KeyOf(scope, workdir, req).scope == scope && KeyOf(scope, workdir, req).workdir == workdir
  {
  }

  /** Requests with one key do the same. */
  lemma SameKeySameOutcome(env: Env, world: World, scope: string, workdir: string, req: Request, other: Request)
    requires KeyOf(scope, workdir, req) == KeyOf(scope, workdir, other)
    ensures Afresh(env, world, scope, workdir, req) == Afresh(env, world, scope, workdir, other)
  {
    KeysDistinguish(scope, workdir, req, scope, workdir, other);
    assert req.(workdir := "", fileRefs := 0) == other.(workdir := "", fileRefs := 0);
  }

  ghost predicate EntryMatches(env: Env, s: State, k: Key)
    requires k in s.cache.entries
  {
    var resp := s.cache.entries[k].response;
    resp.workdir == k.workdir && forall req: Request :: KeyOf(k.scope, k.workdir, req) == k ==>
      Visible(resp) == Afresh(env, s.world, k.scope, k.workdir, req)
  }

  ghost predicate TicketMatches(env: Env, s: State, r: Id)
    requires r in s.threads && Pending(s.threads[r])
  {
    var t := s.threads[r];
    t.phase.ticket.epoch == s.epoch ==>
      && t.phase.ticket.version == s.version
      && (Answered(t) && Completed(t.phase.resp) ==>
            Visible(t.phase.resp) == Afresh(env, s.world, Scope(t.gpt, t.key), t.phase.workdir, t.req))
  }

  ghost predicate MatchInv(env: Env, s: State) {
    Quiescent(s) ==>
      && (forall k :: k in s.cache.entries ==> EntryMatches(env, s, k))
      && (forall r :: r in s.threads && Pending(s.threads[r]) ==> TicketMatches(env, s, r))
  }

  lemma StepWorld(env: Env, s: State, r: Id, act: Act, s': State)
    requires r in s.threads && StepRequest(env, s, r, act, s')
    ensures !Changing(s.threads[r]) && !act.Upload? && !act.Clean? ==> s'.world == s.world && s'.version == s.version
    ensures act.Upload? || act.Clean? || (s.strayed && !Flushes(act)) ==> s'.strayed
    ensures r in s'.threads
    ensures Changing(s.threads[r]) && !Changing(s'.threads[r]) ==> act.FlushAfter?
  {
  }

  lemma QuiescentBefore(env: Env, s: State, r: Id, act: Act, s': State)
    requires r in s.threads && StepRequest(env, s, r, act, s') && Quiescent(s') && !Flushes(act)
    ensures Quiescent(s) && s'.world == s.world && s'.version == s.version
  {
    StepThreads(env, s, r, act, s');
    StepWorld(env, s, r, act, s');
    forall x | x in s.threads ensures !Changing(s.threads[x]) {
      assert x in s'.threads && !Changing(s'.threads[x]);
    }
  }

  lemma TicketStaysMatched(env: Env, s: State, r: Id, act: Act, s': State, x: Id)
    requires MatchInv(env, s) && EpochInv(s) && r in s.threads && StepRequest(env, s, r, act, s')
    requires Quiescent(s') && x in s'.threads && Pending(s'.threads[x])
    ensures TicketMatches(env, s', x)
  {
    StepThreads(env, s, r, act, s');
    StepEpoch(env, s, r, act, s');
    if Flushes(act) {
      if x == r {
        StepTicket(env, s, r, act, s');
      }
    } else {
      QuiescentBefore(env, s, r, act, s');
      if x == r {
        StepTicket(env, s, r, act, s');
        if !act.Lookup? {
          assert TicketMatches(env, s, r);
        }
      } else {
        assert TicketMatches(env, s, x);
      }
    }
  }

  lemma EntryStaysMatched(env: Env, s: State, r: Id, act: Act, s': State, k: Key)
    requires MatchInv(env, s) && EpochInv(s) && s.epoch < TWO_64 && r in s.threads && StepRequest(env, s, r, act, s')
    requires Quiescent(s') && k in s'.cache.entries
    ensures EntryMatches(env, s', k)
  {
    StepEpoch(env, s, r, act, s');
    if !Flushes(act) {
      QuiescentBefore(env, s, r, act, s');
      if act.Store? {
        StoredEntryMatches(env, s, r, act, s', k);
      } else {
        StepEntries(env, s, r, act, s');
        assert EntryMatches(env, s, k);
      }
    }
  }

  lemma StoredEntryMatches(env: Env, s: State, r: Id, act: Act, s': State, k: Key)
    requires MatchInv(env, s) && EpochInv(s) && s.epoch < TWO_64 && r in s.threads && StepRequest(env, s, r, act, s')
    requires act.Store? && Quiescent(s) && s'.world == s.world && k in s'.cache.entries
    ensures EntryMatches(env, s', k)
  {
    StoreEntries(env, s, r, act.now, act.after, s');
    if Puts(s, r, k) {
      PutEntryMatches(env, s, r, act, s', k);
    } else {
      assert EntryMatches(env, s, k);
    }
  }

  lemma PutEntryMatches(env: Env, s: State, r: Id, act: Act, s': State, k: Key)
    requires MatchInv(env, s) && EpochInv(s) && s.epoch < TWO_64 && r in s.threads && StepRequest(env, s, r, act, s')
    requires act.Store? && Quiescent(s) && s'.world == s.world && Puts(s, r, k) && k in s'.cache.entries
    ensures EntryMatches(env, s', k)
  {
    var t := s.threads[r];
    StoreEntries(env, s, r, act.now, act.after, s');
    AcceptedMeansSameEpoch(s, r);
    assert TicketMatches(env, s, r);
    KeyFields(Scope(t.gpt, t.key), t.phase.workdir, t.req);
    forall req: Request | KeyOf(k.scope, k.workdir, req) == k
      ensures Afresh(env, s.world, k.scope, k.workdir, req) == Afresh(env, s.world, k.scope, k.workdir, t.req)
    {
      SameKeySameOutcome(env, s.world, k.scope, k.workdir, req, t.req);
    }
  }

  lemma MatchStep(env: Env, s: State, a: Action, s': State)
    requires MatchInv(env, s) && EpochInv(s) && Step(env, s, a, s') && s'.epoch < TWO_64
    ensures MatchInv(env, s')
  {
    if Quiescent(s') {
      if a.Do? {
        StepEpoch(env, s, a.r, a.act, s');
        forall x | x in s'.threads && Pending(s'.threads[x]) ensures TicketMatches(env, s', x) {
          TicketStaysMatched(env, s, a.r, a.act, s', x);
        }
        forall k | k in s'.cache.entries ensures EntryMatches(env, s', k) {
          EntryStaysMatched(env, s, a.r, a.act, s', k);
        }
      } else {
        forall x | x in s.threads ensures !Changing(s.threads[x]) {
          assert x in s'.threads && !Changing(s'.threads[x]);
        }
        forall x | x in s'.threads && Pending(s'.threads[x]) ensures TicketMatches(env, s', x) {
          assert TicketMatches(env, s, x);
        }
        forall k | k in s'.cache.entries ensures EntryMatches(env, s', k) {
          assert EntryMatches(env, s, k);
        }
      }
    }
  }

  // ---------------------------------------------------------------------
  // Ages
  // ---------------------------------------------------------------------

  /** Requests with one cache scope have one session key, so they share one session lock. */
  lemma ScopeFixesKey(gpt: string, key: string, gpt': string, key': string)
    requires Scope(gpt, key) == Scope(gpt', key') && NulFree(key) && NulFree(key')
    ensures key == key' && (key != "" ==> gpt == gpt')
  {
    LastNulOfJoin(gpt, key);
    LastNulOfJoin(gpt', key');
    if key != "" && gpt != "" && key' != "" && gpt' != "" {
      JoinInjective(gpt, key, gpt', key');
    }
  }

  /** A request inside its locked section whose cache scope is this one. */
  predicate InScope(t: Thread, scope: string) {
    Within(t) && scope != "" && Scope(t.gpt, t.key) == scope
  }

  ghost predicate EntryAge(s: State, k: Key)
    requires k in s.cache.entries
  {
    var e := s.cache.entries[k];
    && e.storedAt <= s.clock && e.expiresAt <= e.storedAt + MAX_TTL
    && forall r :: r in s.threads && InScope(s.threads[r], k.scope) ==> e.storedAt <= s.threads[r].since
  }

  ghost predicate AgeInv(s: State) {
    && (forall k :: k in s.cache.entries ==> EntryAge(s, k))
    && (forall r :: r in s.threads ==> s.threads[r].since <= s.clock)
    && (forall h :: 0 <= h < |s.trace| && s.trace[h].Hit? ==> 0 <= s.trace[h].age < MAX_TTL)
  }

  lemma AgeOfOld(env: Env, s: State, r: Id, act: Act, s': State, k: Key)
    requires AgeInv(s) && r in s.threads && StepRequest(env, s, r, act, s')
    requires k in s.cache.entries && k in s'.cache.entries && s'.cache.entries[k] == s.cache.entries[k]
    requires s'.clock == s.clock
    ensures EntryAge(s', k)
  {
    StepThreads(env, s, r, act, s');
    assert EntryAge(s, k);
  }

  lemma AgeOfNew(env: Env, s: State, r: Id, act: Act, s': State)
    requires LockInv(s) && LockInv(s') && AgeInv(s) && r in s.threads && StepRequest(env, s, r, act, s') && act.Store?
    requires s'.clock == s.clock && r in s'.threads && Within(s'.threads[r])
    requires Accepts(s.cache, Ttl(s.threads[r].req), s.threads[r].phase.ticket.generation)
    requires CacheKey(s.threads[r], s.threads[r].phase.workdir) in s'.cache.entries
    ensures EntryAge(s', CacheKey(s.threads[r], s.threads[r].phase.workdir))
  {
    var t := s.threads[r];
    var k := CacheKey(t, t.phase.workdir);
    StepThreads(env, s, r, act, s');
    StoreEntries(env, s, r, act.now, act.after, s');
    forall x | x in s'.threads && InScope(s'.threads[x], k.scope)
      ensures act.now <= s'.threads[x].since
    {
      assert LockOfThread(s', x) && LockOfThread(s', r);
      ScopeFixesKey(t.gpt, t.key, s'.threads[x].gpt, s'.threads[x].key);
      MutualExclusion(s', x, r);
    }
  }

  lemma StepClock(env: Env, s: State, r: Id, act: Act, s': State)
    requires r in s.threads && StepRequest(env, s, r, act, s')
    ensures s'.clock == s.clock
    ensures act.Store? ==> InSection(act) && s.threads[r].phase.Persisted?
  {
  }

  lemma EntryAgeStep(env: Env, s: State, r: Id, act: Act, s': State, k: Key)
    requires LockInv(s) && LockInv(s') && AgeInv(s) && r in s.threads && StepRequest(env, s, r, act, s')
    requires k in s'.cache.entries
    ensures EntryAge(s', k)
  {
    StepClock(env, s, r, act, s');
    if act.Store? {
      var t := s.threads[r];
      StoreEntries(env, s, r, act.now, act.after, s');
      SectionStepWithin(env, s, r, act, s');
      if Accepts(s.cache, Ttl(t.req), t.phase.ticket.generation) && k == CacheKey(t, t.phase.workdir) {
        AgeOfNew(env, s, r, act, s');
      } else {
        AgeOfOld(env, s, r, act, s', k);
      }
    } else {
      StepEpoch(env, s, r, act, s');
      StepEntries(env, s, r, act, s');
      AgeOfOld(env, s, r, act, s', k);
    }
  }

  lemma HitAge(env: Env, s: State, r: Id, act: Act, s': State)
    requires AgeInv(s) && r in s.threads && StepRequest(env, s, r, act, s') && EventOf(env, s, r, act).Hit?
    ensures 0 <= EventOf(env, s, r, act).age < MAX_TTL
  {
    var t := s.threads[r];
    assert EntryAge(s, CacheKey(t, t.phase.workdir));
  }

  lemma SinceStep(env: Env, s: State, r: Id, act: Act, s': State)
    requires AgeInv(s) && r in s.threads && StepRequest(env, s, r, act, s')
    ensures forall x :: x in s'.threads ==> s'.threads[x].since <= s'.clock
  {
    StepThreads(env, s, r, act, s');
  }

  lemma HitAges(env: Env, s: State, r: Id, act: Act, s': State, h: nat)
    requires AgeInv(s) && r in s.threads && StepRequest(env, s, r, act, s')
    requires h < |s'.trace| && s'.trace[h].Hit?
    ensures 0 <= s'.trace[h].age < MAX_TTL
  {
    StepTrace(env, s, r, act, s');
    if h == |s.trace| {
      HitAge(env, s, r, act, s');
    }
  }

  lemma AgeStep(env: Env, s: State, a: Action, s': State)
    requires LockInv(s) && LockInv(s') && AgeInv(s) && Step(env, s, a, s')
    ensures AgeInv(s')
  {
    if a.Do? {
      SinceStep(env, s, a.r, a.act, s');
      forall k | k in s'.cache.entries ensures EntryAge(s', k) {
        EntryAgeStep(env, s, a.r, a.act, s', k);
      }
      forall h: nat | h < |s'.trace| && s'.trace[h].Hit? ensures 0 <= s'.trace[h].age < MAX_TTL {
        HitAges(env, s, a.r, a.act, s', h);
      }
    } else {
      forall k | k in s'.cache.entries ensures EntryAge(s', k) {
        assert EntryAge(s, k);
      }
    }
  }

  // ---------------------------------------------------------------------
  // Main results
  // ---------------------------------------------------------------------

  ghost predicate CacheInv(env: Env, s: State) {
    && LockInv(s) && AgeInv(s) && EpochInv(s)
    && (s.epoch < TWO_64 ==> FreshInv(s) && MatchInv(env, s))
  }

  lemma CacheInvStep(env: Env, s: State, a: Action, s': State)
    requires CacheInv(env, s) && Step(env, s, a, s')
    ensures CacheInv(env, s')
  {
    LockStep(env, s, a, s');
    AgeStep(env, s, a, s');
    EpochStep(env, s, a, s');
    if a.Do? {
      StepEpoch(env, s, a.r, a.act, s');
    }
    if s'.epoch < TWO_64 {
      FreshStep(env, s, a, s');
      MatchStep(env, s, a, s');
    }
  }

  lemma {:induction false} CacheInvInRun(env: Env, run: seq<State>, i: nat)
    requires IsRun(env, run) && i < |run|
    ensures CacheInv(env, run[i])
  {
    if i > 0 {
      CacheInvInRun(env, run, i - 1);
      assert NextAt(env, run, i - 1);
      var a :| Step(env, run[i - 1], a, run[i]);
      CacheInvStep(env, run[i - 1], a, run[i]);
    }
  }

  lemma ReachableInv(env: Env, s: State)
    requires Reachable(env, s)
    ensures CacheInv(env, s)
  {
    var run :| IsRun(env, run) && run[|run| - 1] == s;
    CacheInvInRun(env, run, |run| - 1);
  }

  /** Request r missed the hit's key at l, finished executing the hit's response at f and stored it at st; every
      invalidation before the hit came before l, and nothing was stored under the key between st and the hit. */
  ghost predicate Provenance(trace: seq<Event>, h: nat, r: Id, l: nat, f: nat, st: nat)
    requires h < |trace| && trace[h].Hit?
  {
    && l < f < st < h
    && trace[l].Missed? && trace[l].r == r && trace[l].cacheKey == trace[h].cacheKey
    && trace[f] == Finished(r, trace[h].resp)
    && trace[st].Stored? && trace[st].r == r && trace[st].cacheKey == trace[h].cacheKey
    && trace[st].resp == trace[h].resp && LastStore(trace, trace[h].cacheKey, st, h)
    && forall m :: 0 <= m < h && trace[m].Flushed? ==> m < l
  }

  /** In every interleaving, a hit answers with a response whose lookup, execution and store all lie after the
      latest invalidation, of either phase, that precedes the hit, and no store under its key lies between. */
  lemma HitsAreNeverStale(env: Env, s: State, h: nat)
    requires Reachable(env, s) && s.epoch < TWO_64 && h < |s.trace| && s.trace[h].Hit?
    ensures exists r: Id, l: nat, f: nat, st: nat :: Provenance(s.trace, h, r, l, f, st)
  {
    ReachableInv(env, s);
    HitBackedUnfolded(s.trace, h);
  }

  lemma HitBackedUnfolded(trace: seq<Event>, h: nat)
    requires h < |trace| && trace[h].Hit? && HitBacked(trace, h)
    ensures exists r: Id, l: nat, f: nat, st: nat :: Provenance(trace, h, r, l, f, st)
  {
    var r: Id, l: nat, f: nat, st: nat :| StoredBy(trace, trace[h].cacheKey, trace[h].resp, r, l, f, st) && st < h &&
                                          LastStore(trace, trace[h].cacheKey, st, h) &&
                                          forall m :: l <= m < h ==> !trace[m].Flushed?;
    assert Provenance(trace, h, r, l, f, st);
  }

  /** While no uncached request is between the start of its execution and its second invalidation, and no upload has
      changed the world since the latest invalidation, every entry is what executing any
      request with its key in the current world gives. */
  lemma EntriesMatchTheWorld(env: Env, s: State, scope: string, workdir: string, req: Request)
    requires Reachable(env, s) && s.epoch < TWO_64 && Quiescent(s) && KeyOf(scope, workdir, req) in s.cache.entries
    ensures Visible(s.cache.entries[KeyOf(scope, workdir, req)].response) == Afresh(env, s.world, scope, workdir, req)
  {
    ReachableInv(env, s);
    KeyFields(scope, workdir, req);
    assert EntryMatches(env, s, KeyOf(scope, workdir, req));
  }

  lemma {:induction false} StrayedInRun(env: Env, run: seq<State>, i: nat)
    requires IsRun(env, run) && i < |run|
    ensures run[i].strayed ==> exists r :: r in run[i].threads && run[i].threads[r].req.fileRefs > 0
  {
    if i > 0 {
      StrayedInRun(env, run, i - 1);
      assert NextAt(env, run, i - 1);
      var a :| Step(env, run[i - 1], a, run[i]);
      StrayedStep(env, run[i - 1], a, run[i]);
    }
  }

  lemma StrayedStep(env: Env, s: State, a: Action, s': State)
    requires Step(env, s, a, s') && (s.strayed ==> exists r :: r in s.threads && s.threads[r].req.fileRefs > 0)
    ensures s'.strayed ==> exists r :: r in s'.threads && s'.threads[r].req.fileRefs > 0
  {
    if s'.strayed {
      if a.Do? && (a.act.Upload? || a.act.Clean?) {
        assert a.r in s'.threads && s'.threads[a.r].req.fileRefs > 0;
      } else {
        var r :| r in s.threads && s.threads[r].req.fileRefs > 0;
        assert r in s'.threads && s'.threads[r].req.fileRefs > 0;
      }
    }
  }

  /** Only requests with uploads make the agent change the world. */
  lemma StrayedNeedsUpload(env: Env, s: State)
    requires Reachable(env, s) && forall r :: r in s.threads ==> s.threads[r].req.fileRefs == 0
    ensures !s.strayed
  {
    var run :| IsRun(env, run) && run[|run| - 1] == s;
    StrayedInRun(env, run, |run| - 1);
  }

  /** In every run, the age of a hit is at least 0 and below 60 seconds. */
  lemma HitAgeBounds(env: Env, s: State, h: nat)
    requires Reachable(env, s) && h < |s.trace| && s.trace[h].Hit?
    ensures 0 <= s.trace[h].age < 60 * SECOND
  {
    ReachableInv(env, s);
  }
}
