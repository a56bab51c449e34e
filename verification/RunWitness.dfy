/** A run in which a hit reports a directory that it does not make the session's directory. */
module RunWitness {
  import opened Wrappers
  import opened Caching
  import opened RunProtocol
  import opened RunCache
  import opened RunHits
  import SessionStore

  const KEY: string := "5e55"

  /** Every path is a directory, and every command succeeds and stays where it is. */
  ghost predicate Plain(env: Env) {
    && env.fallback == "/" && env.savedDirs == map[]
    && (forall w: World, dir: string :: env.isDir(w, dir))
    && (forall start: string, requested: string :: env.join(start, requested) == requested)
    && (forall w: World, scope: string, dir: string, req: Request ::
          env.exec(w, scope, dir, req).exitCode == 0 && env.exec(w, scope, dir, req).workdir == dir)
  }

  function Ask(workdir: string): Request {
    Request("pwd", workdir, "", 0, 60, 0)
  }

  function AskKey(workdir: string): Key {
    KeyOf(KEY, workdir, Ask(workdir))
  }

  function Shown(env: Env, w: World, workdir: string): Outcome {
    Afresh(env, w, KEY, workdir, Ask(workdir))
  }

  function Answer(env: Env, w: World, workdir: string): Response {
    var o := Shown(env, w, workdir);
    Response(o.exitCode, o.stdout, o.stderr, false, false, 0, false, 0, workdir, [], [])
  }

  ghost predicate Open(env: Env, s: State, r: Id) {
    Reachable(env, s) && r in s.threads
  }

  /** s with the phase and the event of one step of r. */
  ghost function After(env: Env, s: State, r: Id, act: Act, phase: Phase): State
    requires r in s.threads
  {
    s.(threads := s.threads[r := s.threads[r].(phase := phase, since := s.clock)],
       trace := s.trace + [EventOf(env, s, r, act)])
  }

  lemma Extend(env: Env, s: State, a: Action, s': State)
    requires Reachable(env, s) && Step(env, s, a, s')
    ensures Reachable(env, s')
  {
    var run :| IsRun(env, run) && run[|run| - 1] == s;
    var longer := run + [s'];
    forall i | 0 <= i < |longer| - 1 ensures NextAt(env, longer, i) {
      if i < |run| - 1 {
        assert NextAt(env, run, i);
        assert longer[i] == run[i] && longer[i + 1] == run[i + 1];
      } else {
        assert longer[i] == s && longer[i + 1] == s';
        assert Next(env, s, s');
      }
    }
    assert IsRun(env, longer) && longer[|longer| - 1] == s';
  }

  lemma Go(env: Env, s: State, r: Id, act: Act, s': State)
    requires Open(env, s, r) && StepRequest(env, s, r, act, s')
    ensures Open(env, s', r)
  {
    Extend(env, s, Do(r, act), s');
  }

  // One step of request r each; only the fields named in the postcondition change.

  ghost predicate In(env: Env, s: State, r: Id, phase: Phase) {
    Open(env, s, r) && s.threads[r].phase == phase && s.threads[r].key == KEY && s.threads[r].gpt == ""
  }

  /** r's thread with another phase. */
  ghost function Turned(s: State, r: Id, phase: Phase): map<Id, Thread>
    requires r in s.threads
  {
    s.threads[r := s.threads[r].(phase := phase, since := s.clock)]
  }

  lemma Arrives(env: Env, s: State, r: Id, workdir: string) returns (s': State)
    requires Plain(env) && Reachable(env, s) && r !in s.threads
    ensures In(env, s', r, Queued)
    ensures s' == s.(threads := s.threads[r := Thread(Ask(workdir), "", KEY, s.clock, Queued)], trace := s'.trace)
  {
    s' := s.(threads := s.threads[r := Thread(Ask(workdir), "", KEY, s.clock, Queued)], trace := s.trace + [Quiet]);
    Extend(env, s, Arrive(r, Ask(workdir), "", KEY), s');
  }

  lemma FindsLock(env: Env, s: State, r: Id) returns (s': State)
    requires Plain(env) && In(env, s, r, Queued)
    ensures KEY in s'.locks && In(env, s', r, Waiting(s'.locks[KEY]))
    ensures s' == s.(threads := Turned(s, r, s'.threads[r].phase), trace := s'.trace, locks := s'.locks)
  {
    var lock := if KEY in s.locks then s.locks[KEY] else |s.locks|;
    s' := After(env, s, r, FindLock, Waiting(lock)).(locks := s.locks[KEY := lock]);
    Go(env, s, r, FindLock, s');
  }

  lemma Acquires(env: Env, s: State, r: Id) returns (s': State)
    requires Plain(env) && KEY in s.locks && In(env, s, r, Waiting(s.locks[KEY])) && s.held == map[]
    ensures In(env, s', r, Inside)
    ensures s' == s.(threads := Turned(s, r, Inside), trace := s'.trace, held := map[s.locks[KEY] := r])
  {
    s' := After(env, s, r, Acquire, Inside).(held := map[s.locks[KEY] := r]);
    Go(env, s, r, Acquire, s');
  }

  lemma Locates(env: Env, s: State, r: Id) returns (s': State)
    requires Plain(env) && In(env, s, r, Inside)
    ensures s'.threads == Turned(s, r, Located(CurrentDir(env, s.world, s.dirs, KEY))) && Open(env, s', r)
    ensures s' == s.(threads := s'.threads, trace := s'.trace)
  {
    s' := After(env, s, r, Locate, Located(CurrentDir(env, s.world, s.dirs, KEY)));
    Go(env, s, r, Locate, s');
  }

  lemma Resolves(env: Env, s: State, r: Id, start: string) returns (s': State)
    requires Plain(env) && In(env, s, r, Located(start)) && s.threads[r].req.workdir != ""
    ensures In(env, s', r, Resolved(start, s.threads[r].req.workdir))
    ensures s' == s.(threads := Turned(s, r, s'.threads[r].phase), trace := s'.trace)
  {
    s' := After(env, s, r, Resolve, Resolved(start, s.threads[r].req.workdir));
    Go(env, s, r, Resolve, s');
  }

  lemma Misses(env: Env, s: State, r: Id, start: string, workdir: string) returns (s': State)
    requires Plain(env) && In(env, s, r, Resolved(start, workdir)) && s.threads[r].req == Ask(workdir)
    requires s.threads[r].since <= s.clock
    requires AskKey(workdir) !in s.cache.entries
    ensures Open(env, s', r) && s'.threads[r].phase.Executing? && s'.threads[r].phase.workdir == workdir
    ensures s'.threads[r].phase.ticket.generation == s.cache.generation
    ensures s' == s.(threads := Turned(s, r, s'.threads[r].phase), trace := s'.trace)
  {
    s' := After(env, s, r, Lookup(s.clock),
                Executing(workdir, Ticket(s.cache.generation, s.epoch, s.version, |s.trace|, 0)));
    Go(env, s, r, Lookup(s.clock), s');
  }

  lemma Finishes(env: Env, s: State, r: Id, workdir: string) returns (s': State)
    requires Plain(env) && Open(env, s, r)
    requires s.threads[r].phase.Executing? && s.threads[r].phase.workdir == workdir
    requires s.threads[r].key == KEY && s.threads[r].gpt == "" && s.threads[r].req == Ask(workdir)
    ensures Open(env, s', r) && s'.threads[r].phase.Executed? && s'.threads[r].phase.workdir == workdir
    ensures s'.threads[r].phase.resp == Answer(env, s.world, workdir)
    ensures s'.threads[r].phase.ticket.generation == s.threads[r].phase.ticket.generation
    ensures s' == s.(threads := Turned(s, r, s'.threads[r].phase), trace := s'.trace)
  {
    var act := FinishRead(Some(Answer(env, s.world, workdir)));
    var ticket := s.threads[r].phase.ticket.(finishedAt := |s.trace|);
    s' := After(env, s, r, act, Executed(workdir, ticket, Answer(env, s.world, workdir)));
    Go(env, s, r, act, s');
  }

  lemma Persists(env: Env, s: State, r: Id, workdir: string) returns (s': State)
    requires Plain(env) && Open(env, s, r)
    requires s.threads[r].phase.Executed? && s.threads[r].phase.workdir == workdir != ""
    requires s.threads[r].phase.resp == Answer(env, s.world, workdir) && s.threads[r].key == KEY
    ensures Open(env, s', r)
    ensures s'.threads[r].phase == Persisted(workdir, s.threads[r].phase.ticket, Answer(env, s.world, workdir))
    ensures s' == s.(threads := Turned(s, r, s'.threads[r].phase), trace := s'.trace, dirs := s.dirs[KEY := workdir])
  {
    s' := After(env, s, r, Persist, Persisted(workdir, s.threads[r].phase.ticket, Answer(env, s.world, workdir)));
    s' := s'.(dirs := s.dirs[KEY := workdir]);
    Go(env, s, r, Persist, s');
  }

  /** Entries that were all stored just now leave room for one more. */
  ghost predicate Roomy(s: State, entries: map<Key, Entry>) {
    |entries| < MAX_ENTRIES && forall k :: k in entries ==> Fresh(entries[k], s.clock)
  }

  ghost function WithAnswer(env: Env, s: State, workdir: string): map<Key, Entry> {
    s.cache.entries[AskKey(workdir) := Entry(s.clock, s.clock + MAX_TTL, Answer(env, s.world, workdir))]
  }

  lemma PutsAnswer(env: Env, s: State, workdir: string, generation: nat)
    requires Plain(env) && Roomy(s, s.cache.entries) && generation == s.cache.generation
    ensures Ttl(Ask(workdir)) == MAX_TTL && Accepts(s.cache, MAX_TTL, generation)
    ensures PutStep(s.cache, AskKey(workdir), Answer(env, s.world, workdir), MAX_TTL, generation, s.clock,
                    s.cache.(entries := WithAnswer(env, s, workdir)))
  {
    assert Unexpired(s.cache.entries, s.clock) == s.cache.entries;
  }

  lemma Stores(env: Env, s: State, r: Id, workdir: string, ticket: Ticket) returns (s': State)
    requires Plain(env) && In(env, s, r, Persisted(workdir, ticket, Answer(env, s.world, workdir)))
    requires s.threads[r].req == Ask(workdir)
    requires ticket.generation == s.cache.generation && Roomy(s, s.cache.entries) && s.threads[r].since <= s.clock
    ensures In(env, s', r, Replied(Some(Answer(env, s.world, workdir))))
    ensures s'.cache == s.cache.(entries := WithAnswer(env, s, workdir))
    ensures s' == s.(threads := Turned(s, r, s'.threads[r].phase), trace := s'.trace, cache := s'.cache,
                     origin := s'.origin)
  {
    var k := AskKey(workdir);
    var cache := s.cache.(entries := WithAnswer(env, s, workdir));
    PutsAnswer(env, s, workdir, ticket.generation);
    var act := Store(s.clock, cache);
    s' := After(env, s, r, act, Replied(Some(Answer(env, s.world, workdir))));
    s' := s'.(cache := cache, origin := s.origin[k := Origin(r, ticket.lookedAt, ticket.finishedAt, |s.trace|)]);
    Go(env, s, r, act, s');
  }

  lemma Leaves(env: Env, s: State, r: Id, reply: Option<Response>) returns (s': State)
    requires Plain(env) && In(env, s, r, Replied(reply)) && KEY in s.locks && s.held == map[s.locks[KEY] := r]
    ensures Open(env, s', r)
    ensures s' == s.(threads := Turned(s, r, Gone), trace := s'.trace, held := map[])
  {
    s' := After(env, s, r, Leave, Gone).(held := map[]);
    assert s.held - {s.locks[KEY]} == map[];
    Go(env, s, r, Leave, s');
  }

  // ---------------------------------------------------------------------
  // The run
  // ---------------------------------------------------------------------

  /** Nobody is in a section. */
  ghost predicate Calm(env: Env, s: State) {
    Reachable(env, s) && s.held == map[]
  }

  ghost predicate SameWorld(s: State, s': State) {
    s'.clock == s.clock && s'.world == s.world && s'.strayed == s.strayed
  }

  /** A request for workdir is in its section and about to look up, at the time of its last step. */
  ghost predicate AtLookup(env: Env, s: State, r: Id, workdir: string) {
    && Open(env, s, r) && s.threads[r].phase.Resolved? && s.threads[r].phase.workdir == workdir
    && s.threads[r].key == KEY && s.threads[r].gpt == "" && s.threads[r].req == Ask(workdir)
    && s.threads[r].since == s.clock && KEY in s.locks && s.held == map[s.locks[KEY] := r]
  }

  /** A request arrives and gets to its lookup. */
  lemma Enters(env: Env, s: State, r: Id, workdir: string) returns (s': State)
    requires Plain(env) && Calm(env, s) && r !in s.threads && workdir != ""
    ensures AtLookup(env, s', r, workdir) && s'.threads == s.threads[r := s'.threads[r]]
    ensures SameWorld(s, s') && s'.cache == s.cache && s'.dirs == s.dirs
  {
    var s1 := Arrives(env, s, r, workdir);
    var s2 := FindsLock(env, s1, r);
    var s3 := Acquires(env, s2, r);
    var s4 := Locates(env, s3, r);
    s' := Resolves(env, s4, r, s4.threads[r].phase.start);
  }

  /** It misses, executes and makes its directory the session's. */
  lemma Executes(env: Env, s: State, r: Id, workdir: string) returns (s': State, ticket: Ticket)
    requires Plain(env) && Open(env, s, r)
    requires s.threads[r].phase.Resolved? && s.threads[r].phase.workdir == workdir != ""
    requires In(env, s, r, s.threads[r].phase) && s.threads[r].req == Ask(workdir) && s.threads[r].since <= s.clock
    requires AskKey(workdir) !in s.cache.entries
    ensures In(env, s', r, Persisted(workdir, ticket, Answer(env, s.world, workdir)))
    ensures ticket.generation == s.cache.generation
    ensures s' == s.(threads := Turned(s, r, s'.threads[r].phase), trace := s'.trace, dirs := s.dirs[KEY := workdir])
  {
    var s1 := Misses(env, s, r, s.threads[r].phase.start, workdir);
    var s2 := Finishes(env, s1, r, workdir);
    s' := Persists(env, s2, r, workdir);
    ticket := s2.threads[r].phase.ticket;
  }

  /** A whole request that ends by storing its response and leaving. */
  lemma Round(env: Env, s: State, r: Id, workdir: string) returns (s': State)
    requires Plain(env) && Calm(env, s) && r !in s.threads && workdir != ""
    requires AskKey(workdir) !in s.cache.entries && Roomy(s, s.cache.entries)
    ensures Calm(env, s') && SameWorld(s, s') && r in s'.threads
    ensures s'.threads == s.threads[r := s'.threads[r]] && s'.threads[r].phase.Gone?
    ensures s'.dirs == s.dirs[KEY := workdir] && s'.cache.entries == WithAnswer(env, s, workdir)
  {
    var s1 := Enters(env, s, r, workdir);
    EnteringKeepsRoom(env, s, s1, workdir);
    s' := Works(env, s1, r, workdir);
  }

  lemma EnteringKeepsRoom(env: Env, s: State, s': State, workdir: string)
    requires SameWorld(s, s') && s'.cache == s.cache
    ensures Roomy(s, s.cache.entries) ==> Roomy(s', s'.cache.entries)
    ensures WithAnswer(env, s', workdir) == WithAnswer(env, s, workdir)
  {
  }

  lemma Works(env: Env, s: State, r: Id, workdir: string) returns (s': State)
    requires Plain(env) && AtLookup(env, s, r, workdir) && workdir != ""
    requires AskKey(workdir) !in s.cache.entries && Roomy(s, s.cache.entries)
    ensures Calm(env, s') && SameWorld(s, s') && s'.threads == Turned(s, r, Gone)
    ensures s'.dirs == s.dirs[KEY := workdir] && s'.cache.entries == WithAnswer(env, s, workdir)
  {
    var s1, ticket := Executes(env, s, r, workdir);
    s' := Keeps(env, s1, r, workdir, ticket);
  }

  /** It stores its response and leaves. */
  lemma Keeps(env: Env, s: State, r: Id, workdir: string, ticket: Ticket) returns (s': State)
    requires Plain(env) && In(env, s, r, Persisted(workdir, ticket, Answer(env, s.world, workdir)))
    requires s.threads[r].req == Ask(workdir)
    requires ticket.generation == s.cache.generation && Roomy(s, s.cache.entries) && s.threads[r].since <= s.clock
    requires KEY in s.locks && s.held == map[s.locks[KEY] := r]
    ensures Calm(env, s') && SameWorld(s, s') && s'.dirs == s.dirs && s'.cache.entries == WithAnswer(env, s, workdir)
    ensures s'.threads == Turned(s, r, Gone)
  {
    var s1 := Stores(env, s, r, workdir, ticket);
    s' := Leaves(env, s1, r, Some(Answer(env, s.world, workdir)));
  }

  lemma Starts(env: Env, w: World) returns (s: State)
    requires Plain(env)
    ensures Calm(env, s) && s.threads == map[] && s.cache.entries == map[] && s.dirs == map[]
    ensures s.world == w && !s.strayed
  {
    s := State(w, 0, false, Cache(map[], 0), 0, map[], map[], map[], map[], map[], 0, []);
    assert IsRun(env, [s]) && [s][0] == s;
  }

  lemma Hits(env: Env, s: State, r: Id, workdir: string, e: Entry) returns (s': State)
    requires Plain(env) && Open(env, s, r)
    requires s.threads[r].phase.Resolved? && s.threads[r].phase.workdir == workdir
    requires In(env, s, r, s.threads[r].phase) && s.threads[r].req == Ask(workdir) && s.threads[r].since <= s.clock
    requires AskKey(workdir) in s.cache.entries && s.cache.entries[AskKey(workdir)] == e && Fresh(e, s.clock)
    ensures IsHit(env, s, r, Lookup(s.clock)) && StepRequest(env, s, r, Lookup(s.clock), s')
    ensures s'.threads[r].phase == Replied(Some(FromCache(e.response, s.clock - e.storedAt)))
    ensures s'.dirs == s.dirs && s'.world == s.world
  {
    s' := After(env, s, r, Lookup(s.clock), Replied(Some(FromCache(e.response, s.clock - e.storedAt))));
  }

  /** One request runs in directory a and is cached. */
  lemma First(env: Env, w: World, a: string) returns (s: State)
    requires Plain(env) && a != ""
    ensures Calm(env, s) && s.threads.Keys == {0} && s.threads[0].phase.Gone?
    ensures s.dirs == map[KEY := a] && s.world == w && !s.strayed
    ensures s.cache.entries == map[AskKey(a) := Entry(s.clock, s.clock + MAX_TTL, Answer(env, s.world, a))]
  {
    var s0 := Starts(env, w);
    s := Round(env, s0, 0, a);
  }

  /** A second one moves the session to b. */
  lemma Second(env: Env, s: State, a: string, b: string) returns (s': State)
    requires Plain(env) && AskKey(a) != AskKey(b) && b != ""
    requires Calm(env, s) && s.threads.Keys == {0} && s.threads[0].phase.Gone? && s.dirs == map[KEY := a]
    requires s.cache.entries == map[AskKey(a) := Entry(s.clock, s.clock + MAX_TTL, Answer(env, s.world, a))]
    ensures Calm(env, s') && s'.threads.Keys == {0, 1} && s'.threads[0].phase.Gone? && s'.threads[1].phase.Gone?
    ensures s'.dirs == map[KEY := b] && AskKey(a) in s'.cache.entries && SameWorld(s, s')
    ensures s'.cache.entries[AskKey(a)] == Entry(s'.clock, s'.clock + MAX_TTL, Answer(env, s.world, a))
  {
    assert Roomy(s, s.cache.entries);
    s' := Round(env, s, 1, b);
  }

  /** Then a third one, for a, is a hit: it reports a and leaves the session in b, where a fresh execution would have
      left it in a. */
  lemma HitLeavesSessionElsewhere(env: Env, w: World, a: string, b: string)
    returns (s: State, r: Id, act: Act, s': State)
    requires Plain(env) && a != b && a != "" && b != ""
    ensures Reachable(env, s) && Quiescent(s) && IsHit(env, s, r, act) && StepRequest(env, s, r, act, s')
    ensures s'.threads[r].phase.Replied? && s'.threads[r].phase.reply.Some?
    ensures s'.threads[r].phase.reply.value.workdir == a
    ensures CurrentDir(env, s'.world, s'.dirs, s.threads[r].key) == b
    ensures CurrentDir(env, s.world, SessionStore.WithDir(s.dirs, s.threads[r].key, a), s.threads[r].key) == a
  {
    var s1 := First(env, w, a);
    assert AskKey(a) != AskKey(b);
    var s2 := Second(env, s1, a, b);
    s := Enters(env, s2, 2, a);
    r, act := 2, Lookup(s.clock);
    s' := Hits(env, s, r, a, s.cache.entries[AskKey(a)]);
  }

  // ---------------------------------------------------------------------
  // An upload
  // ---------------------------------------------------------------------

  /** A request with one uploaded file, without a session identity. */
  const ATTACHED: Request := Request("cat", "", "", 0, 0, 1)

  const DONE: Response := Response(0, "", "", false, false, 0, false, 0, "/", [], [])

  ghost predicate Uploading(env: Env, s: State, r: Id, phase: Phase) {
    Open(env, s, r) && s.threads[r].req == ATTACHED && s.threads[r].key == "" && s.threads[r].phase == phase
  }

  /** A step that changes nothing but the phase. */
  ghost predicate OnlyMoves(act: Act) {
    act == EnterUnkeyed || act == Locate || act == Resolve || act == Start || act == Finish(Some(DONE)) ||
    act == PersistUncached
  }

  lemma Moves(env: Env, s: State, r: Id, act: Act, from: Phase, to: Phase) returns (s': State)
    requires Plain(env) && Uploading(env, s, r, from) && OnlyMoves(act) && Goes(env, s, s.threads[r], act, to)
    ensures Uploading(env, s', r, to)
    ensures s' == s.(threads := Turned(s, r, to), trace := s'.trace)
  {
    s' := After(env, s, r, act, to);
    Go(env, s, r, act, s');
  }

  lemma Flushed(env: Env, s: State, r: Id, act: Act, from: Phase, to: Phase) returns (s': State)
    requires Uploading(env, s, r, from) && Flushes(act) && Goes(env, s, s.threads[r], act, to)
    ensures Uploading(env, s', r, to) && s'.cache.entries == map[]
    ensures s' == s.(threads := Turned(s, r, to), trace := s'.trace, cache := s'.cache, epoch := s.epoch + 1,
                     strayed := false)
  {
    s' := After(env, s, r, act, to).(cache := Invalidated(s.cache), epoch := s.epoch + 1, strayed := false);
    Go(env, s, r, act, s');
  }

  lemma Writes(env: Env, s: State, r: Id, w: World, phase: Phase) returns (s': State)
    requires Uploading(env, s, r, phase) && phase.Prepared?
    ensures Uploading(env, s', r, phase)
    ensures s' == s.(threads := Turned(s, r, phase), trace := s'.trace, world := w, version := s.version + 1,
                     strayed := true)
  {
    s' := After(env, s, r, Upload(w), phase).(world := w, version := s.version + 1, strayed := true);
    Go(env, s, r, Upload(w), s');
  }

  lemma Cleans(env: Env, s: State, r: Id, w: World, phase: Phase) returns (s': State)
    requires Uploading(env, s, r, phase) && phase.Replied?
    ensures Uploading(env, s', r, phase)
    ensures s' == s.(threads := Turned(s, r, phase), trace := s'.trace, world := w, version := s.version + 1,
                     strayed := true)
  {
    s' := After(env, s, r, Clean(w), phase).(world := w, version := s.version + 1, strayed := true);
    Go(env, s, r, Clean(w), s');
  }

  lemma UploadArrives(env: Env, s: State) returns (s': State)
    requires Calm(env, s) && 0 !in s.threads
    ensures Uploading(env, s', 0, Queued)
    ensures s' == s.(threads := s.threads[0 := Thread(ATTACHED, "", "", s.clock, Queued)], trace := s'.trace)
  {
    s' := s.(threads := s.threads[0 := Thread(ATTACHED, "", "", s.clock, Queued)], trace := s.trace + [Quiet]);
    Extend(env, s, Arrive(0, ATTACHED, "", ""), s');
  }

  /** The upload request gets to its first invalidation and writes its file. */
  lemma UploadPrepares(env: Env, s: State, w: World) returns (s': State)
    requires Plain(env) && Calm(env, s) && 0 !in s.threads
    ensures Uploading(env, s', 0, Prepared("/")) && s'.threads.Keys == s.threads.Keys + {0}
    ensures s'.world == w && s'.held == map[] && s'.clock == s.clock
  {
    var s1 := UploadArrives(env, s);
    var s2 := Moves(env, s1, 0, EnterUnkeyed, Queued, Inside);
    var s3 := Moves(env, s2, 0, Locate, Inside, Located("/"));
    var s4 := Moves(env, s3, 0, Resolve, Located("/"), Resolved("/", "/"));
    var s5 := Flushed(env, s4, 0, FlushBefore, Resolved("/", "/"), Prepared("/"));
    s' := Writes(env, s5, 0, w, Prepared("/"));
  }

  /** It runs its command, invalidates again and has its answer, with its file still there. */
  lemma UploadRuns(env: Env, s: State) returns (s': State)
    requires Plain(env) && Uploading(env, s, 0, Prepared("/")) && s.held == map[]
    ensures Uploading(env, s', 0, Replied(Some(DONE))) && s'.threads.Keys == s.threads.Keys
    ensures s'.world == s.world && s'.held == map[] && s'.clock == s.clock && s'.cache.entries == map[]
  {
    var s1 := Moves(env, s, 0, Start, Prepared("/"), Running("/"));
    var s2 := Moves(env, s1, 0, Finish(Some(DONE)), Running("/"), Ran(Some(DONE)));
    var s3 := Flushed(env, s2, 0, FlushAfter, Ran(Some(DONE)), Exited(DONE));
    s' := Moves(env, s3, 0, PersistUncached, Exited(DONE), Replied(Some(DONE)));
  }

  /** A request with an upload has run, and its file is still there. */
  lemma UploadIsDone(env: Env, before: World, during: World) returns (s: State)
    requires Plain(env)
    ensures Calm(env, s) && s.threads.Keys == {0} && Uploading(env, s, 0, Replied(Some(DONE)))
    ensures s.cache.entries == map[] && s.world == during
  {
    var s0 := Starts(env, before);
    var s1 := UploadPrepares(env, s0, during);
    s := UploadRuns(env, s1);
  }

  /** A cached command sees it and is stored. */
  lemma UploadIsSeen(env: Env, s: State, a: string) returns (s': State)
    requires Plain(env) && a != "" && s.cache.entries == map[]
    requires Calm(env, s) && s.threads.Keys == {0} && Uploading(env, s, 0, Replied(Some(DONE)))
    ensures Calm(env, s') && s'.threads.Keys == {0, 1} && s'.threads[1].phase.Gone?
    ensures Uploading(env, s', 0, Replied(Some(DONE)))
    ensures s'.cache.entries == map[AskKey(a) := Entry(s'.clock, s'.clock + MAX_TTL, Answer(env, s.world, a))]
  {
    s' := Round(env, s, 1, a);
  }

  /** Then the upload directory is removed. The next request is a hit although no command is running, and it shows
      what executing afresh would not show. */
  lemma UploadLeavesStaleEntry(env: Env, before: World, during: World, a: string)
    returns (s: State, r: Id, act: Act, s': State)
    requires Plain(env) && a != "" && Shown(env, before, a).stdout != Shown(env, during, a).stdout
    ensures Reachable(env, s) && IsHit(env, s, r, act) && StepRequest(env, s, r, act, s')
    ensures s.strayed && forall x :: x in s.threads ==> !Changing(s.threads[x])
    ensures s'.threads[r].phase.Replied? && s'.threads[r].phase.reply.Some?
    ensures s.threads[r].phase.workdir == a && s.threads[r].req == Ask(a)
    ensures Scope(s.threads[r].gpt, s.threads[r].key) == KEY
    ensures s'.threads[r].phase.reply.value.stdout != Shown(env, s.world, a).stdout
  {
    var s1 := UploadIsDone(env, before, during);
    var s2 := UploadIsSeen(env, s1, a);
    var s3 := Cleans(env, s2, 0, before, Replied(Some(DONE)));
    s := Enters(env, s3, 2, a);
    r, act := 2, Lookup(s.clock);
    s' := Hits(env, s, r, a, s.cache.entries[AskKey(a)]);
  }

  /** Such machines exist: commands print whether the world is this one. */
  ghost function Demo(shown: World): Env {
    Env("/", map[], (w, dir) => true, (start, requested) => requested,
        (w, scope: string, dir: string, req: Request) => Outcome(0, if w == shown then "1" else "0", "", dir))
  }

  lemma DemoIsPlain(w: World, other: World, a: string)
    ensures Plain(Demo(w))
    ensures w != other ==> Shown(Demo(w), other, a).stdout != Shown(Demo(w), w, a).stdout
  {
  }
}
