/** The run-command protocol as a step machine: concurrent requests that share the session locks,
    the session directories, the command cache and the machine they run on
    (runCommand in internal/agent/server.go, internal/agent/session.go). */
module RunProtocol {
  import opened Wrappers
  import opened Caching
  import opened Strings
  import SessionStore

  /** Everything a shell command can observe or change, apart from the agent's own records of sessions, audit and
      output. The files of an upload are part of it. */
  type World(!new)

  type Id = nat

  /** What a response tells about the execution, without durations and cache markers. */
  datatype Outcome = Outcome(exitCode: int, stdout: string, stderr: string, workdir: string)

  /** exec is what a read-only request yields for a cache scope and a directory when it runs to its end in one
      unchanging world. */
  datatype Env = Env(
    fallback: string,
    savedDirs: map<string, string>,
    isDir: (World, string) -> bool,
    join: (string, string) -> string,
    exec: (World, string, string, Request) -> Outcome)

  /** What a missed lookup leaves with the request. generation is the code's own guard; epoch, version
      and the two trace positions are bookkeeping of the model. */
  datatype Ticket = Ticket(generation: nat, epoch: nat, version: nat, lookedAt: nat, finishedAt: nat)

  datatype Phase =
    | Queued
    | Waiting(lock: nat)
    | Inside
    | Located(start: string)
    | Resolved(start: string, workdir: string)
    | Executing(workdir: string, ticket: Ticket)
    | Executed(workdir: string, ticket: Ticket, resp: Response)
    | Persisted(workdir: string, ticket: Ticket, resp: Response)
    | Prepared(workdir: string)
    | Running(workdir: string)
    | Ran(result: Option<Response>)
    | Exited(resp: Response)
    | Replied(reply: Option<Response>)
    | Gone

  datatype Thread = Thread(req: Request, gpt: string, key: string, since: int, phase: Phase)

  /** One event per step; the trace is the order in which the steps happened. */
  datatype Event =
    | Quiet
    | Entered(r: Id, key: string)
    | Left(r: Id, key: string)
    | Read(r: Id, key: string, stored: Option<string>, live: bool, dir: string)
    | SetTo(r: Id, key: string, dir: string)
    | Missed(r: Id, key: string, cacheKey: Key)
    | Hit(r: Id, key: string, cacheKey: Key, resp: Response, age: int)
    | Finished(r: Id, resp: Response)
    | Stored(r: Id, key: string, cacheKey: Key, resp: Response)
    | Flushed(r: Id, before: bool)
    | Mutated(r: Id)
    | Strayed(r: Id)

  datatype Origin = Origin(r: Id, lookedAt: nat, finishedAt: nat, storedAt: nat)

  /** epoch counts the invalidations, version counts the changes of the world, and strayed says whether the agent
      itself has written or removed files of an upload since the latest invalidation. */
  datatype State = State(
    world: World, version: nat, strayed: bool,
    cache: Cache, epoch: nat, origin: map<Key, Origin>,
    dirs: map<string, string>, locks: map<string, nat>, held: map<nat, Id>,
    threads: map<Id, Thread>, clock: int, trace: seq<Event>)

  /** What a request can do next, with the choices that are not the program's. */
  datatype Act =
    | FindLock
    | Acquire
    | EnterUnkeyed
    | Locate
    | Resolve
    | Lookup(now: int)
    | Bypass
    | FlushBefore
    | Upload(world: World)
    | FetchFailed
    | Start
    | Mutate(world: World)
    | Finish(result: Option<Response>)
    | FlushAfter
    | FinishRead(result: Option<Response>)
    | Persist
    | PersistUncached
    | Store(now: int, after: Cache)
    | Skip
    | Clean(world: World)
    | Leave

  datatype Action =
    | Tick(delta: nat)
    | Arrive(id: Id, req: Request, gpt: string, key: string)
    | Do(r: Id, act: Act)

  function Visible(resp: Response): Outcome {
    Outcome(resp.exitCode, resp.stdout, resp.stderr, resp.workdir)
  }

  /** The cache scope of a request: the session key, prefixed with the GPT identity when there is one. */
  function Scope(gpt: string, key: string): string {
    if key != "" && gpt != "" then Join(gpt, key) else key
  }

  /** Executing a request: the directory it asks for counts only through the directory it resolves to. */
  function Afresh(env: Env, world: World, scope: string, workdir: string, req: Request): Outcome {
    env.exec(world, scope, workdir, req.(workdir := "", fileRefs := 0))
  }

  function CacheKey(t: Thread, workdir: string): Key {
    KeyOf(Scope(t.gpt, t.key), workdir, t.req)
  }

  predicate Live(env: Env, world: World, dirs: map<string, string>, key: string) {
    key != "" && SessionStore.Saved(dirs, key).Some? && env.isDir(world, dirs[key])
  }

  /** The directory a session is in: the saved one while it exists, the workspace root otherwise. */
  function CurrentDir(env: Env, world: World, dirs: map<string, string>, key: string): string {
    if Live(env, world, dirs, key) then dirs[key] else env.fallback
  }

  /** join stands for taking an absolute request as it is and joining and cleaning a relative one. */
  function Target(env: Env, start: string, requested: string): string {
    if requested == "" then start else env.join(start, requested)
  }

  predicate Storable(t: Thread, workdir: string, resp: Response) {
    && Scope(t.gpt, t.key) != ""
    && resp.exitCode == 0 && !resp.timedOut && !resp.truncated && resp.attachments == []
    && resp.workdir == workdir
  }

  /** The command ran to a successful end: it was not killed. */
  predicate Completed(resp: Response) {
    resp.exitCode == 0 && !resp.timedOut
  }

  function FromCache(resp: Response, age: int): Response {
    resp.(cacheHit := true, cacheAgeMs := age / 1_000_000, durationMs := 0)
  }

  // ---------------------------------------------------------------------
  // Steps
  // ---------------------------------------------------------------------

  function SetEvent(r: Id, key: string, dir: string): Event {
    if key == "" || dir == "" then Quiet else SetTo(r, key, dir)
  }

  /** The event of a request's step. */
  function EventOf(env: Env, s: State, r: Id, act: Act): Event
    requires r in s.threads
  {
    var t := s.threads[r];
    match act
    case Acquire => Entered(r, t.key)
    case Leave => Left(r, t.key)
    case Locate =>
      Read(r, t.key, SessionStore.Saved(s.dirs, t.key), Live(env, s.world, s.dirs, t.key),
           CurrentDir(env, s.world, s.dirs, t.key))
    case Lookup(now) =>
      if !t.phase.Resolved? then Quiet
      else
        var k := CacheKey(t, t.phase.workdir);
        if Hits(s.cache, k, now) then
          Hit(r, t.key, k, s.cache.entries[k].response, now - s.cache.entries[k].storedAt)
        else Missed(r, t.key, k)
    case FlushBefore => Flushed(r, true)
    case FlushAfter => Flushed(r, false)
    case Mutate(w) => Mutated(r)
    case Upload(w) => Strayed(r)
    case Clean(w) => Strayed(r)
    case FinishRead(result) => if result.Some? then Finished(r, result.value) else Quiet
    case Persist => if t.phase.Executed? then SetEvent(r, t.key, t.phase.resp.workdir) else Quiet
    case PersistUncached => if t.phase.Exited? then SetEvent(r, t.key, t.phase.resp.workdir) else Quiet
    case Store(now, after) =>
      if t.phase.Persisted? && Accepts(s.cache, Ttl(t.req), t.phase.ticket.generation) then
        Stored(r, t.key, CacheKey(t, t.phase.workdir), t.phase.resp)
      else Quiet
    case _ => Quiet
  }

  ghost predicate Init(env: Env, s: State) {
    && s.version == 0 && !s.strayed && s.cache == Cache(map[], 0) && s.epoch == 0 && s.origin == map[]
    && s.dirs == env.savedDirs && s.locks == map[] && s.held == map[] && s.threads == map[] && s.trace == []
  }

  /** Arrival of a request that passed validation. The session key is a hexadecimal digest. */
  predicate CanArrive(s: State, r: Id, req: Request, key: string) {
    && r !in s.threads
    && TtlValid(req.ttlSeconds)
    && (req.ttlSeconds > 0 ==> req.fileRefs == 0)
    && NulFree(key)
  }

  /** Where a request is after the step: the guard of each step and its next phase. The clock is read before the
      cache mutex is taken, so now lies between the request's last step and this one. A command that saw one world
      from its lookup to its end, and completed, answers with Afresh; otherwise it may have seen any mixture, or may
      have been killed, and answers anything. */
  ghost predicate Goes(env: Env, s: State, t: Thread, act: Act, next: Phase) {
    match act
    case FindLock =>
      t.phase.Queued? && t.key != "" && next == Waiting(if t.key in s.locks then s.locks[t.key] else |s.locks|)
    case Acquire => t.phase.Waiting? && t.phase.lock !in s.held && next == Inside
    case EnterUnkeyed => t.phase.Queued? && t.key == "" && next == Inside
    case Locate => t.phase.Inside? && next == Located(CurrentDir(env, s.world, s.dirs, t.key))
    case Resolve =>
      && t.phase.Located?
      && var workdir := Target(env, t.phase.start, t.req.workdir);
         next == if env.isDir(s.world, workdir) then Resolved(t.phase.start, workdir) else Replied(None)
    case Lookup(now) =>
      && t.phase.Resolved? && t.req.ttlSeconds > 0 && Scope(t.gpt, t.key) != "" && t.since <= now <= s.clock
      && var k := CacheKey(t, t.phase.workdir);
         if Hits(s.cache, k, now) then
           var e := s.cache.entries[k];
           next == Replied(Some(FromCache(e.response, now - e.storedAt)))
         else
           next == Executing(t.phase.workdir, Ticket(s.cache.generation, s.epoch, s.version, |s.trace|, 0))
    case Bypass =>
      && t.phase.Resolved? && t.req.ttlSeconds > 0 && Scope(t.gpt, t.key) == ""
      && next == Executing(t.phase.workdir, Ticket(0, s.epoch, s.version, |s.trace|, 0))
    case FlushBefore => t.phase.Resolved? && t.req.ttlSeconds == 0 && next == Prepared(t.phase.workdir)
    case Upload(w) => t.phase.Prepared? && t.req.fileRefs > 0 && next == t.phase
    case FetchFailed => t.phase.Prepared? && t.req.fileRefs > 0 && next == Replied(None)
    case Start => t.phase.Prepared? && next == Running(t.phase.workdir)
    case Mutate(w) => t.phase.Running? && next == t.phase
    case Finish(result) => t.phase.Running? && next == Ran(result)
    case FlushAfter =>
      && t.phase.Ran?
      && next == if t.phase.result.Some? then Exited(t.phase.result.value) else Replied(None)
    case FinishRead(result) =>
      && t.phase.Executing?
      && (result.Some? && t.phase.ticket.version == s.version && Completed(result.value) ==>
            Visible(result.value) == Afresh(env, s.world, Scope(t.gpt, t.key), t.phase.workdir, t.req))
      && next == if result.Some? then Executed(t.phase.workdir, t.phase.ticket.(finishedAt := |s.trace|), result.value)
                 else Replied(None)
    case Persist => t.phase.Executed? && next == Persisted(t.phase.workdir, t.phase.ticket, t.phase.resp)
    case PersistUncached => t.phase.Exited? && next == Replied(Some(t.phase.resp))
    case Store(now, after) =>
      && t.phase.Persisted? && Storable(t, t.phase.workdir, t.phase.resp) && t.since <= now <= s.clock
      && next == Replied(Some(t.phase.resp))
    case Skip =>
      && t.phase.Persisted? && !Storable(t, t.phase.workdir, t.phase.resp)
      && next == Replied(Some(t.phase.resp))
    case Clean(w) => t.phase.Replied? && t.req.fileRefs > 0 && next == t.phase
    case Leave => t.phase.Replied? && next == Gone
  }

  /** The session locks: found or created, taken, released. */
  ghost predicate LocksAfter(s: State, r: Id, t: Thread, act: Act, locks: map<string, nat>, held: map<nat, Id>) {
    match act
    case FindLock => locks == s.locks[t.key := if t.key in s.locks then s.locks[t.key] else |s.locks|] && held == s.held
    case Acquire => t.phase.Waiting? && locks == s.locks && held == s.held[t.phase.lock := r]
    case Leave =>
      locks == s.locks && held == if t.key != "" && t.key in s.locks then s.held - {s.locks[t.key]} else s.held
    case _ => locks == s.locks && held == s.held
  }

  /** The session directories: set by every request whose command ran. */
  ghost predicate DirsAfter(s: State, t: Thread, act: Act, dirs: map<string, string>) {
    match act
    case Persist => t.phase.Executed? && dirs == SessionStore.WithDir(s.dirs, t.key, t.phase.resp.workdir)
    case PersistUncached => t.phase.Exited? && dirs == SessionStore.WithDir(s.dirs, t.key, t.phase.resp.workdir)
    case _ => dirs == s.dirs
  }

  /** The cache, the count of its invalidations and where its entries came from. */
  ghost predicate CacheAfter(s: State, r: Id, t: Thread, act: Act, cache: Cache, epoch: nat, origin: map<Key, Origin>) {
    match act
    case FlushBefore => cache == Invalidated(s.cache) && epoch == s.epoch + 1 && origin == s.origin
    case FlushAfter => cache == Invalidated(s.cache) && epoch == s.epoch + 1 && origin == s.origin
    case Lookup(now) =>
      && t.phase.Resolved? && cache == AfterGet(s.cache, CacheKey(t, t.phase.workdir), now)
      && epoch == s.epoch && origin == s.origin
    case Store(now, after) =>
      && t.phase.Persisted? && cache == after && epoch == s.epoch
      && var k, ticket := CacheKey(t, t.phase.workdir), t.phase.ticket;
         && PutStep(s.cache, k, t.phase.resp, Ttl(t.req), ticket.generation, now, after)
         && origin == if Accepts(s.cache, Ttl(t.req), ticket.generation)
                      then s.origin[k := Origin(r, ticket.lookedAt, ticket.finishedAt, |s.trace|)] else s.origin
    case _ => cache == s.cache && epoch == s.epoch && origin == s.origin
  }

  /** The world: changed by a running command, and by the agent when it writes the files of an upload, removes those
      of a batch that failed, or removes the upload directory of a request that it has answered. */
  ghost predicate WorldAfter(s: State, act: Act, world: World, version: nat, strayed: bool) {
    match act
    case Mutate(w) => world == w && version == s.version + 1 && strayed == s.strayed
    case Upload(w) => world == w && version == s.version + 1 && strayed
    case Clean(w) => world == w && version == s.version + 1 && strayed
    case FlushBefore => world == s.world && version == s.version && !strayed
    case FlushAfter => world == s.world && version == s.version && !strayed
    case _ => world == s.world && version == s.version && strayed == s.strayed
  }

  /** Only the stepping request moves, and the step leaves one event. */
  ghost predicate Moved(s: State, r: Id, ev: Event, s': State)
    requires r in s.threads
  {
    && r in s'.threads
    && s'.threads == s.threads[r := s.threads[r].(phase := s'.threads[r].phase, since := s.clock)]
    && s'.clock == s.clock && s'.trace == s.trace + [ev]
  }

  ghost predicate StepRequest(env: Env, s: State, r: Id, act: Act, s': State)
    requires r in s.threads
  {
    var t := s.threads[r];
    && Moved(s, r, EventOf(env, s, r, act), s')
    && Goes(env, s, t, act, s'.threads[r].phase)
    && LocksAfter(s, r, t, act, s'.locks, s'.held)
    && DirsAfter(s, t, act, s'.dirs)
    && CacheAfter(s, r, t, act, s'.cache, s'.epoch, s'.origin)
    && WorldAfter(s, act, s'.world, s'.version, s'.strayed)
  }

  ghost predicate Step(env: Env, s: State, a: Action, s': State) {
    match a
    case Tick(delta) => s' == s.(clock := s.clock + delta, trace := s.trace + [Quiet])
    case Arrive(r, req, gpt, key) =>
      && CanArrive(s, r, req, key)
      && s' == s.(threads := s.threads[r := Thread(req, gpt, key, s.clock, Queued)], trace := s.trace + [Quiet])
    case Do(r, act) => r in s.threads && StepRequest(env, s, r, act, s')
  }

  ghost predicate Next(env: Env, s: State, s': State) {
    exists a :: Step(env, s, a, s')
  }

  ghost predicate NextAt(env: Env, run: seq<State>, i: nat)
    requires i + 1 < |run|
  {
    Next(env, run[i], run[i + 1])
  }

  ghost predicate IsRun(env: Env, run: seq<State>) {
    && |run| > 0 && Init(env, run[0])
    && forall i :: 0 <= i < |run| - 1 ==> NextAt(env, run, i)
  }

  /** Some run ends in s. */
  ghost predicate Reachable(env: Env, s: State) {
    exists run :: IsRun(env, run) && run[|run| - 1] == s
  }
}
