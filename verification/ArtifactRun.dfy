/** Publishing, cleanup and downloads in every interleaving (publish, cleanupLoop and ServeHTTP in
    internal/agent/artifact.go). */
module ArtifactRun {
  import opened Wrappers
  import opened Numerals
  import opened Strings
  import opened Links
  import opened Artifacts

  datatype Env = Env(mac: string -> seq<byte>, ttl: int)

  /** A published artifact and the bytes its file held then. */
  datatype Publication = Publication(artifact: Artifact, content: seq<byte>)

  /** Where a download is. at is the instant of its expiry check, end that of its answer. */
  datatype Phase =
    | Received
    | Checked(asked: Asked, at: int)
    | Found(item: Artifact, at: int)
    | Answered(status: nat, at: int, end: int, size: nat, body: seq<byte>)

  /** known are the ids that were published when the request arrived. */
  datatype Download = Download(target: string, known: set<string>, phase: Phase)

  /** abandoned are the captures whose command could not be answered because reading them back failed. */
  datatype State = State(clock: int, store: Store, used: set<string>, captures: map<string, string>,
                         abandoned: map<string, string>, published: map<string, Publication>,
                         downloads: map<nat, Download>)

  datatype Action =
    | Tick(delta: nat)
    | Capture(id: string, stream: string)
    | Fill(id: string, content: seq<byte>)
    | Drop(id: string)
    | Abandon(id: string)
    | Publish(id: string, now: int)
    | CleanUp(now: int)
    | Arrive(d: nat, target: string)
    | Check(d: nat)
    | Lookup(d: nat)
    | Open(d: nat)

  // ---------------------------------------------------------------------
  // A download
  // ---------------------------------------------------------------------

  /** The checks that need no shared state: path, expiry, signature. */
  function AfterCheck(env: Env, target: string, now: int): Phase {
    match Ask(DOWNLOAD, target)
    case None => Answered(404, now, now, 0, [])
    case Some(q) =>
      if q.expires.None? || Unix(now) > q.expires.value then Answered(410, now, now, 0, [])
      else if q.signature != Some(env.mac(Message(q.id, q.name, q.expires.value))) then Answered(403, now, now, 0, [])
      else Checked(q, now)
  }

  function AfterLookup(s: State, q: Asked, at: int): Phase {
    if q.id in s.store.items && s.store.items[q.id].name == q.name &&
       Some(Unix(s.store.items[q.id].expires)) == q.expires
    then Found(s.store.items[q.id], at) else Answered(404, at, s.clock, 0, [])
  }

  function AfterOpen(s: State, item: Artifact, at: int): Phase {
    if item.name in s.store.files then Answered(200, at, s.clock, item.size, s.store.files[item.name])
    else Answered(404, at, s.clock, 0, [])
  }

  function Moved(s: State, d: nat, phase: Phase): State
    requires d in s.downloads
  {
    s.(downloads := s.downloads[d := s.downloads[d].(phase := phase)])
  }

  // ---------------------------------------------------------------------
  // Steps
  // ---------------------------------------------------------------------

  ghost predicate Init(s: State) {
    s.store == Store(map[], map[]) && s.used == {} && s.captures == map[] && s.abandoned == map[] &&
    s.published == map[] && s.downloads == map[]
  }

  /** Ids come from 128 random bits and are taken not to repeat. An instant that was read before a lock was taken
      may lie in the past. */
  ghost predicate Step(env: Env, s: State, a: Action, s': State) {
    match a
    case Tick(delta) => s' == s.(clock := s.clock + delta)
    case Capture(id, stream) =>
      && IsId(id) && IsStream(stream) && id !in s.used && NameOf(id, stream) !in s.store.files
      && s' == s.(store := s.store.(files := s.store.files[NameOf(id, stream) := []]),
                  used := s.used + {id}, captures := s.captures[id := stream])
    case Fill(id, content) =>
      && id in s.captures
      && s' == s.(store := s.store.(files := s.store.files[NameOf(id, s.captures[id]) := content]))
    case Drop(id) =>
      && id in s.captures
      && s' == s.(store := Discarded(s.store, NameOf(id, s.captures[id])), captures := s.captures - {id})
    case Abandon(id) =>
      && id in s.captures
      && s' == s.(captures := s.captures - {id}, abandoned := s.abandoned[id := s.captures[id]])
    case Publish(id, now) =>
      && id in s.captures && now <= s.clock && NameOf(id, s.captures[id]) in s.store.files
      && var name := NameOf(id, s.captures[id]);
         var content := s.store.files[name];
         var a := Artifact(id, name, |content|, now + env.ttl);
         s' == s.(store := Published(s.store, a), captures := s.captures - {id},
                  published := s.published[id := Publication(a, content)])
    case CleanUp(now) => now <= s.clock && s' == s.(store := CleanedUp(s.store, now))
    case Arrive(d, target) =>
      d !in s.downloads && s' == s.(downloads := s.downloads[d := Download(target, s.published.Keys, Received)])
    case Check(d) =>
      && d in s.downloads && s.downloads[d].phase.Received?
      && s' == Moved(s, d, AfterCheck(env, s.downloads[d].target, s.clock))
    case Lookup(d) =>
      && d in s.downloads && s.downloads[d].phase.Checked?
      && s' == Moved(s, d, AfterLookup(s, s.downloads[d].phase.asked, s.downloads[d].phase.at))
    case Open(d) =>
      && d in s.downloads && s.downloads[d].phase.Found?
      && s' == Moved(s, d, AfterOpen(s, s.downloads[d].phase.item, s.downloads[d].phase.at))
  }

  ghost predicate Next(env: Env, s: State, s': State) {
    exists a :: Step(env, s, a, s')
  }

  ghost predicate NextAt(env: Env, run: seq<State>, i: nat)
    requires i + 1 < |run|
  {
    Next(env, run[i], run[i + 1])
  }

  ghost predicate IsRun(env: Env, run: seq<State>) {
    && |run| > 0 && Init(run[0])
    && forall i :: 0 <= i < |run| - 1 ==> NextAt(env, run, i)
  }

  ghost predicate Reachable(env: Env, s: State) {
    exists run :: IsRun(env, run) && run[|run| - 1] == s
  }

  // ---------------------------------------------------------------------
  // The store
  // ---------------------------------------------------------------------

  ghost predicate CaptureOk(s: State, id: string)
    requires id in s.captures
  {
    IsId(id) && id in s.used && IsStream(s.captures[id]) && NameOf(id, s.captures[id]) in s.store.files
  }

  /** Nothing will ever publish or remove the file of an abandoned capture. */
  ghost predicate AbandonedOk(s: State, id: string)
    requires id in s.abandoned
  {
    && IsId(id) && id in s.used && id !in s.captures && id !in s.published
    && NameOf(id, s.abandoned[id]) in s.store.files
  }

  ghost predicate PublicationOk(s: State, id: string)
    requires id in s.published
  {
    var p := s.published[id];
    && id in s.used && id !in s.captures && IsId(id) && p.artifact.id == id
    && (p.artifact.name == NameOf(id, "stdout") || p.artifact.name == NameOf(id, "stderr"))
    && p.artifact.size == |p.content|
    && (p.artifact.name in s.store.files ==> s.store.files[p.artifact.name] == p.content)
    && (s.clock <= p.artifact.expires ==> id in s.store.items)
  }

  ghost predicate ItemOk(s: State, id: string)
    requires id in s.store.items
  {
    id in s.published && s.store.items[id] == s.published[id].artifact && s.store.items[id].name in s.store.files
  }

  ghost predicate Stranded(s: State, name: string) {
    exists id :: id in s.abandoned && NameOf(id, s.abandoned[id]) == name
  }

  ghost predicate Owned(s: State, name: string) {
    || (exists id :: id in s.captures && NameOf(id, s.captures[id]) == name)
    || (exists id :: id in s.store.items && s.store.items[id].name == name)
  }

  ghost predicate Accounted(s: State, name: string) {
    Owned(s, name) || Stranded(s, name)
  }

  ghost predicate StoreInv(s: State) {
    && (forall id :: id in s.captures ==> CaptureOk(s, id))
    && (forall id :: id in s.published ==> PublicationOk(s, id))
    && (forall id :: id in s.store.items ==> ItemOk(s, id))
    && (forall id :: id in s.abandoned ==> AbandonedOk(s, id))
    && (forall name :: name in s.store.files ==> Accounted(s, name))
  }

  /** A published file is not the file of another id. */
  lemma PublishedElsewhere(s: State, x: string, id: string, stream: string)
    requires x in s.published && PublicationOk(s, x) && IsId(id) && id != x
    ensures s.published[x].artifact.name != NameOf(id, stream)
  {
    if s.published[x].artifact.name == NameOf(id, stream) {
      NamesDiffer(x, if s.published[x].artifact.name == NameOf(x, "stdout") then "stdout" else "stderr", id, stream);
    }
  }

  lemma PublishedApart(s: State, x: string, y: string)
    requires x in s.published && PublicationOk(s, x) && y in s.published && PublicationOk(s, y)
    requires s.published[x].artifact.name == s.published[y].artifact.name
    ensures x == y
  {
    if x != y {
      PublishedElsewhere(s, x, y, if s.published[y].artifact.name == NameOf(y, "stdout") then "stdout" else "stderr");
    }
  }

  /** A step that changes one capture's file and nothing that is published. */
  ghost predicate TouchesCapture(s: State, s': State, id: string, stream: string) {
    && IsId(id) && id !in s.published && id !in s.abandoned && s'.abandoned == s.abandoned
    && s'.clock == s.clock && s'.published == s.published && s'.store.items == s.store.items
    && s.used <= s'.used
    && (id in s.captures ==> s.captures[id] == stream)
    && (forall x :: x != id ==> (x in s'.captures <==> x in s.captures))
    && (forall x :: x != id && x in s.captures ==> s'.captures[x] == s.captures[x])
    && (forall name :: name != NameOf(id, stream) ==> (name in s'.store.files <==> name in s.store.files))
    && (forall name :: name != NameOf(id, stream) && name in s.store.files ==>
          s'.store.files[name] == s.store.files[name])
    && (id in s'.captures ==> id in s'.used && IsStream(stream) && s'.captures[id] == stream)
    && (id in s'.captures <==> NameOf(id, stream) in s'.store.files)
  }

  lemma CapturedOnly(s: State, id: string)
    requires StoreInv(s) && id in s.captures
    ensures id !in s.published && id !in s.abandoned
  {
  }

  lemma UsedBefore(s: State, id: string)
    requires StoreInv(s)
    ensures id in s.published || id in s.abandoned ==> id in s.used
  {
  }

  lemma CaptureTouches(env: Env, s: State, a: Action, s': State)
    requires StoreInv(s) && Step(env, s, a, s') && (a.Capture? || a.Fill? || a.Drop?)
    ensures TouchesCapture(s, s', a.id, if a.Capture? then a.stream else s.captures[a.id])
  {
    if a.id in s.captures {
      CapturedOnly(s, a.id);
      assert CaptureOk(s, a.id);
    } else {
      UsedBefore(s, a.id);
    }
  }

  lemma CaptureStep(s: State, s': State, id: string, stream: string)
    requires StoreInv(s) && TouchesCapture(s, s', id, stream)
    ensures StoreInv(s')
  {
    forall x | x in s'.captures ensures CaptureOk(s', x) {
      if x != id {
        assert CaptureOk(s, x);
        if NameOf(x, s.captures[x]) == NameOf(id, stream) {
          NamesDiffer(x, s.captures[x], id, stream);
        }
      }
    }
    forall x | x in s'.published ensures PublicationOk(s', x) {
      assert PublicationOk(s, x);
      PublishedElsewhere(s, x, id, stream);
    }
    forall x | x in s'.store.items ensures ItemOk(s', x) {
      assert ItemOk(s, x) && PublicationOk(s, x);
      PublishedElsewhere(s, x, id, stream);
    }
    forall x | x in s'.abandoned ensures AbandonedOk(s', x) {
      assert AbandonedOk(s, x);
      if NameOf(x, s.abandoned[x]) == NameOf(id, stream) {
        NamesDiffer(x, s.abandoned[x], id, stream);
      }
    }
    forall name | name in s'.store.files ensures Accounted(s', name) {
      CaptureStepOwned(s, s', id, stream, name);
    }
  }

  lemma CaptureStepOwned(s: State, s': State, id: string, stream: string, name: string)
    requires StoreInv(s) && TouchesCapture(s, s', id, stream) && name in s'.store.files
    ensures Accounted(s', name)
  {
    if name == NameOf(id, stream) {
      assert id in s'.captures;
    } else {
      assert Accounted(s, name);
      if x :| x in s.captures && NameOf(x, s.captures[x]) == name {
        assert x in s'.captures && NameOf(x, s'.captures[x]) == name;
      } else if x :| x in s.store.items && s.store.items[x].name == name {
        assert x in s'.store.items && s'.store.items[x].name == name;
      } else {
        assert Stranded(s, name);
      }
    }
  }

  lemma PublishStep(env: Env, s: State, id: string, now: int, s': State)
    requires StoreInv(s) && Step(env, s, Publish(id, now), s')
    ensures StoreInv(s')
  {
    assert CaptureOk(s, id);
    forall x | x in s'.captures ensures CaptureOk(s', x) {
      assert CaptureOk(s, x);
    }
    forall x | x in s'.published ensures PublicationOk(s', x) {
      if x != id {
        assert PublicationOk(s, x);
      }
    }
    forall x | x in s'.store.items ensures ItemOk(s', x) {
      if x != id {
        assert ItemOk(s, x);
      }
    }
    forall x | x in s'.abandoned ensures AbandonedOk(s', x) {
      assert AbandonedOk(s, x);
    }
    forall name | name in s'.store.files ensures Accounted(s', name) {
      PublishStepOwned(env, s, id, now, s', name);
    }
  }

  lemma PublishStepOwned(env: Env, s: State, id: string, now: int, s': State, name: string)
    requires StoreInv(s) && Step(env, s, Publish(id, now), s') && name in s'.store.files
    ensures Accounted(s', name)
  {
    assert Accounted(s, name);
    if x :| x in s.captures && NameOf(x, s.captures[x]) == name {
      assert if x == id then s'.store.items[x].name == name else x in s'.captures && s'.captures[x] == s.captures[x];
    } else if x :| x in s.store.items && s.store.items[x].name == name {
      assert x in s.published && PublicationOk(s, x) && ItemOk(s, x);
      assert x in s'.store.items && s'.store.items[x].name == name;
    } else {
      assert Stranded(s, name);
    }
  }

  /** Cleanup removes an item together with its own file, and neither before it has expired. */
  lemma CleanUpStep(env: Env, s: State, now: int, s': State)
    requires StoreInv(s) && Step(env, s, CleanUp(now), s')
    ensures StoreInv(s')
  {
    forall x | x in s'.captures ensures CaptureOk(s', x) {
      assert CaptureOk(s, x);
      if y :| y in s.store.items && s.store.items[y].name == NameOf(x, s.captures[x]) {
        assert ItemOk(s, y) && PublicationOk(s, y);
        PublishedElsewhere(s, y, x, s.captures[x]);
      }
    }
    forall x | x in s'.published ensures PublicationOk(s', x) {
      assert PublicationOk(s, x);
      if s.clock <= s.published[x].artifact.expires {
        assert ItemOk(s, x);
      }
    }
    forall x | x in s'.store.items ensures ItemOk(s', x) {
      assert ItemOk(s, x) && PublicationOk(s, x);
      if y :| y in s.store.items && now > s.store.items[y].expires && s.store.items[y].name == s.store.items[x].name {
        assert ItemOk(s, y) && PublicationOk(s, y);
        PublishedApart(s, x, y);
      }
    }
    forall x | x in s'.abandoned ensures AbandonedOk(s', x) {
      assert AbandonedOk(s, x);
      if y :| y in s.store.items && s.store.items[y].name == NameOf(x, s.abandoned[x]) {
        assert ItemOk(s, y) && PublicationOk(s, y);
        PublishedElsewhere(s, y, x, s.abandoned[x]);
      }
    }
    forall name | name in s'.store.files ensures Accounted(s', name) {
      assert Accounted(s, name);
      if x :| x in s.captures && NameOf(x, s.captures[x]) == name {
        assert x in s'.captures && NameOf(x, s'.captures[x]) == name;
      } else if x :| x in s.store.items && s.store.items[x].name == name {
        assert x in s'.store.items && s'.store.items[x].name == name;
      } else {
        assert Stranded(s, name);
      }
    }
  }

  /** Giving up a capture leaves its file where it is. */
  lemma AbandonStep(env: Env, s: State, id: string, s': State)
    requires StoreInv(s) && Step(env, s, Abandon(id), s')
    ensures StoreInv(s')
  {
    assert CaptureOk(s, id);
    CapturedOnly(s, id);
    forall x | x in s'.captures ensures CaptureOk(s', x) {
      assert CaptureOk(s, x);
    }
    forall x | x in s'.published ensures PublicationOk(s', x) {
      assert PublicationOk(s, x);
    }
    forall x | x in s'.store.items ensures ItemOk(s', x) {
      assert ItemOk(s, x);
    }
    forall x | x in s'.abandoned ensures AbandonedOk(s', x) {
      if x != id {
        assert AbandonedOk(s, x);
      }
    }
    forall name | name in s'.store.files ensures Accounted(s', name) {
      AbandonStepAccounted(env, s, id, s', name);
    }
  }

  lemma AbandonStepAccounted(env: Env, s: State, id: string, s': State, name: string)
    requires StoreInv(s) && Step(env, s, Abandon(id), s') && name in s'.store.files
    ensures Accounted(s', name)
  {
    assert Accounted(s, name);
    if x :| x in s.captures && NameOf(x, s.captures[x]) == name {
      if x == id {
        assert x in s'.abandoned && s'.abandoned[x] == s.captures[x];
      } else {
        assert x in s'.captures && s'.captures[x] == s.captures[x];
      }
    } else if x :| x in s.store.items && s.store.items[x].name == name {
      assert x in s'.store.items && s'.store.items[x].name == name;
    } else {
      var x :| x in s.abandoned && NameOf(x, s.abandoned[x]) == name;
      assert AbandonedOk(s, x);
      assert x in s'.abandoned && s'.abandoned[x] == s.abandoned[x];
    }
  }

  lemma StoreStep(env: Env, s: State, a: Action, s': State)
    requires StoreInv(s) && Step(env, s, a, s')
    ensures StoreInv(s')
  {
    if a.Capture? || a.Fill? || a.Drop? {
      CaptureTouches(env, s, a, s');
      CaptureStep(s, s', a.id, if a.Capture? then a.stream else s.captures[a.id]);
    } else if a.Publish? {
      PublishStep(env, s, a.id, a.now, s');
    } else if a.CleanUp? {
      CleanUpStep(env, s, a.now, s');
    } else if a.Abandon? {
      AbandonStep(env, s, a.id, s');
    } else {
      SameStore(s, s');
    }
  }

  /** Only the clock and the downloads may differ. */
  ghost predicate SameFiles(s: State, s': State) {
    && s'.clock >= s.clock && s'.store == s.store && s'.used == s.used && s'.captures == s.captures
    && s'.abandoned == s.abandoned && s'.published == s.published
  }

  lemma SameStore(s: State, s': State)
    requires StoreInv(s) && SameFiles(s, s')
    ensures StoreInv(s')
  {
    forall x | x in s'.captures ensures CaptureOk(s', x) {
      assert CaptureOk(s, x);
    }
    forall x | x in s'.published ensures PublicationOk(s', x) {
      assert PublicationOk(s, x);
    }
    forall x | x in s'.store.items ensures ItemOk(s', x) {
      assert ItemOk(s, x);
    }
    forall x | x in s'.abandoned ensures AbandonedOk(s', x) {
      assert AbandonedOk(s, x);
    }
    forall name | name in s'.store.files ensures Accounted(s', name) {
      assert Accounted(s, name);
    }
  }

  // ---------------------------------------------------------------------
  // Downloads
  // ---------------------------------------------------------------------

  /** What the link of a reads as. */
  function AskedFor(env: Env, a: Artifact): Asked {
    Asked(a.id, a.name, Some(Unix(a.expires)), Some(env.mac(Message(a.id, a.name, Unix(a.expires)))))
  }

  /** The request passed the checks at the instant at. */
  ghost predicate Passed(env: Env, target: string, q: Asked, at: int) {
    && Ask(DOWNLOAD, target) == Some(q)
    && q.expires.Some? && Unix(at) <= q.expires.value
    && q.signature == Some(env.mac(Message(q.id, q.name, q.expires.value)))
  }

  /** The phase of a request that asks for exactly this publication, known when the request arrived. */
  ghost predicate Kept(p: Publication, phase: Phase) {
    phase.Answered? ==>
      && (phase.status == 200 || phase.status == 404 || phase.status == 410)
      && (phase.status == 410 <==> Unix(phase.at) > Unix(p.artifact.expires))
      && (phase.status == 200 ==> phase.body == p.content && phase.size == |p.content|)
      && (phase.end <= p.artifact.expires ==> phase.status == 200)
  }

  ghost predicate PhaseOk(env: Env, s: State, target: string, phase: Phase) {
    match phase
    case Received => true
    case Checked(q, at) => Passed(env, target, q, at) && at <= s.clock
    case Found(item, at) =>
      && item.id in s.published && item == s.published[item.id].artifact
      && Ask(DOWNLOAD, target) == Some(AskedFor(env, item)) && Unix(at) <= Unix(item.expires) && at <= s.clock
    case Answered(status, at, end, size, body) =>
      && at <= end <= s.clock
      && (match AfterCheck(env, target, at)
          case Answered(refused, _, _, _, _) => status == refused
          case _ => status == 200 || status == 404)
      && (status == 200 ==> exists id :: id in s.published && ServedAs(env, s.published[id], target, phase))
  }

  /** The answer is the whole of p, to a request for exactly p, in time. */
  ghost predicate ServedAs(env: Env, p: Publication, target: string, phase: Phase) {
    && phase.Answered? && phase.status == 200
    && Ask(DOWNLOAD, target) == Some(AskedFor(env, p.artifact))
    && Unix(phase.at) <= Unix(p.artifact.expires) && phase.size == |phase.body| && phase.body == p.content
  }

  ghost predicate DownloadOk(env: Env, s: State, d: nat)
    requires d in s.downloads
  {
    var w := s.downloads[d];
    && PhaseOk(env, s, w.target, w.phase) && w.known <= s.published.Keys
    && forall id :: id in w.known && Ask(DOWNLOAD, w.target) == Some(AskedFor(env, s.published[id].artifact)) ==>
         Kept(s.published[id], w.phase)
  }

  ghost predicate Inv(env: Env, s: State) {
    StoreInv(s) && forall d :: d in s.downloads ==> DownloadOk(env, s, d)
  }

  /** What is published stays published as it was. */
  lemma PublishedStays(env: Env, s: State, a: Action, s': State)
    requires StoreInv(s) && Step(env, s, a, s')
    ensures s.clock <= s'.clock
    ensures forall id :: id in s.published ==> id in s'.published && s'.published[id] == s.published[id]
  {
    assert a.Publish? && a.id in s.published ==> PublicationOk(s, a.id);
  }

  lemma CheckStep(env: Env, s: State, d: nat, s': State)
    requires Inv(env, s) && Step(env, s, Check(d), s')
    ensures DownloadOk(env, s', d)
  {
    assert DownloadOk(env, s, d);
  }

  lemma LookupStep(env: Env, s: State, d: nat, s': State)
    requires Inv(env, s) && Step(env, s, Lookup(d), s')
    ensures DownloadOk(env, s', d)
  {
    assert DownloadOk(env, s, d);
    var w := s.downloads[d];
    var q := w.phase.asked;
    if q.id in s.store.items {
      assert ItemOk(s, q.id) && PublicationOk(s, q.id);
    }
    forall id | id in w.known && Ask(DOWNLOAD, w.target) == Some(AskedFor(env, s.published[id].artifact))
      ensures Kept(s.published[id], s'.downloads[d].phase)
    {
      assert PublicationOk(s, id);
    }
  }

  lemma OpenStep(env: Env, s: State, d: nat, s': State)
    requires Inv(env, s) && Step(env, s, Open(d), s')
    ensures DownloadOk(env, s', d)
  {
    assert DownloadOk(env, s, d);
    var w := s.downloads[d];
    var item := w.phase.item;
    assert PublicationOk(s, item.id);
    if item.id in s.store.items {
      assert ItemOk(s, item.id);
    }
    if s'.downloads[d].phase.status == 200 {
      assert ServedAs(env, s'.published[item.id], w.target, s'.downloads[d].phase);
    }
    forall id | id in w.known && Ask(DOWNLOAD, w.target) == Some(AskedFor(env, s.published[id].artifact))
      ensures Kept(s.published[id], s'.downloads[d].phase)
    {
      assert PublicationOk(s, id);
    }
  }

  /** A download that does not move stays as it should be. */
  lemma OtherDownload(env: Env, s: State, a: Action, s': State, d: nat)
    requires Inv(env, s) && Step(env, s, a, s') && d in s.downloads && s'.downloads[d] == s.downloads[d]
    ensures DownloadOk(env, s', d)
  {
    PublishedStays(env, s, a, s');
    assert DownloadOk(env, s, d);
    var w := s.downloads[d];
    if w.phase.Answered? && w.phase.status == 200 {
      var id :| id in s.published && ServedAs(env, s.published[id], w.target, w.phase);
      assert id in s'.published && ServedAs(env, s'.published[id], w.target, w.phase);
    }
  }

  lemma InvStep(env: Env, s: State, a: Action, s': State)
    requires Inv(env, s) && Step(env, s, a, s')
    ensures Inv(env, s')
  {
    StoreStep(env, s, a, s');
    forall d | d in s'.downloads ensures DownloadOk(env, s', d) {
      if d in s.downloads && s'.downloads[d] == s.downloads[d] {
        OtherDownload(env, s, a, s', d);
      } else if a.Check? {
        CheckStep(env, s, d, s');
      } else if a.Lookup? {
        LookupStep(env, s, d, s');
      } else if a.Open? {
        OpenStep(env, s, d, s');
      }
    }
  }

  lemma {:induction false} InvInRun(env: Env, run: seq<State>, i: nat)
    requires IsRun(env, run) && i < |run|
    ensures Inv(env, run[i])
  {
    if i > 0 {
      InvInRun(env, run, i - 1);
      assert NextAt(env, run, i - 1);
      var a :| Step(env, run[i - 1], a, run[i]);
      InvStep(env, run[i - 1], a, run[i]);
    }
  }

  lemma ReachableInv(env: Env, s: State)
    requires Reachable(env, s)
    ensures Inv(env, s)
  {
    var run :| IsRun(env, run) && run[|run| - 1] == s;
    InvInRun(env, run, |run| - 1);
  }

  // ---------------------------------------------------------------------
  // Main results
  // ---------------------------------------------------------------------

  ghost predicate Linkable(a: Artifact) {
    IsBytes(a.id) && IsBytes(a.name) && -TWO_63 <= Unix(a.expires) < TWO_63
  }

  lemma PublishedReadsBack(env: Env, s: State, id: string)
    requires StoreInv(s) && id in s.published && -TWO_63 <= Unix(s.published[id].artifact.expires) < TWO_63
    ensures var a := s.published[id].artifact;
            Linkable(a) && Ask(DOWNLOAD, LinkOf(env.mac, a)) == Some(AskedFor(env, a))
  {
    var a := s.published[id].artifact;
    assert PublicationOk(s, id);
    NameIsClean(id, "stdout");
    NameIsClean(id, "stderr");
    DownloadLayout();
    LinkReadsBack(DOWNLOAD, a.id, a.name, Unix(a.expires), env.mac(Message(a.id, a.name, Unix(a.expires))));
  }

  /** A request for the link of an artifact that was published before the request arrived is never refused as badly
      signed. It is answered as expired exactly when its check falls into a later second than the expiry, and with
      the whole file whenever the answer is given no later than the expiry. */
  lemma LinkIsHonoured(env: Env, s: State, d: nat, id: string)
    requires Reachable(env, s) && d in s.downloads && s.downloads[d].phase.Answered?
    requires id in s.downloads[d].known && id in s.published && Linkable(s.published[id].artifact)
    requires s.downloads[d].target == LinkOf(env.mac, s.published[id].artifact)
    ensures var p, answer := s.published[id], s.downloads[d].phase;
            && (answer.status == 200 || answer.status == 404 || answer.status == 410)
            && (answer.status == 410 <==> Unix(answer.at) > Unix(p.artifact.expires))
            && (answer.status == 200 ==> answer.body == p.content && answer.size == |p.content|)
            && (answer.end <= p.artifact.expires ==> answer.status == 200)
    ensures var p, answer := s.published[id], s.downloads[d].phase;
            && (answer.at <= p.artifact.expires ==> answer.status != 410)
            && (answer.at >= p.artifact.expires + 1_000_000_000 ==> answer.status == 410)
  {
    ReachableInv(env, s);
    PublishedReadsBack(env, s, id);
    assert DownloadOk(env, s, d);
    UnixIsFloor(s.downloads[d].phase.at);
    UnixIsFloor(s.published[id].artifact.expires);
  }

  ghost predicate CollisionFree(mac: string -> seq<byte>) {
    forall x, y :: mac(x) == mac(y) ==> x == y
  }

  lemma IdNulFree(id: string, stream: string)
    requires IsId(id) && IsStream(stream)
    ensures NulFree(id) && NulFree(NameOf(id, stream))
  {
  }

  lemma PublishedNulFree(s: State, id: string)
    requires StoreInv(s) && id in s.published
    ensures NulFree(s.published[id].artifact.id) && NulFree(s.published[id].artifact.name)
  {
    assert PublicationOk(s, id);
    IdNulFree(id, "stdout");
    IdNulFree(id, "stderr");
  }

  /** The check of a request with the signature of an artifact's link. */
  lemma CheckOfSigned(env: Env, a: Artifact, target: string, q: Asked, at: int)
    requires CollisionFree(env.mac) && NulFree(a.id) && NulFree(a.name) && -TWO_63 <= Unix(a.expires) < TWO_63
    requires Ask(DOWNLOAD, target) == Some(q) && q.signature == AskedFor(env, a).signature
    ensures var phase := AfterCheck(env, target, at);
            if q.expires.None? || Unix(at) > q.expires.value then phase.Answered? && phase.status == 410
            else if q.id != a.id || q.name != a.name || q.expires.value != Unix(a.expires) then
              phase.Answered? && phase.status == 403
            else phase.Checked?
  {
    if q.expires.Some? {
      AskedInRange(DOWNLOAD, target);
      SignedTextDistinguishes(a.id, a.name, Unix(a.expires), q.id, q.name, q.expires.value);
    }
  }

  lemma AnswerOfCheck(env: Env, s: State, d: nat)
    requires Inv(env, s) && d in s.downloads && s.downloads[d].phase.Answered?
    ensures var w := s.downloads[d];
            var phase := AfterCheck(env, w.target, w.phase.at);
            if phase.Answered? then w.phase.status == phase.status else w.phase.status == 200 || w.phase.status == 404
  {
    assert DownloadOk(env, s, d);
  }

  /** A request that carries the signature of a published artifact's link is answered as expired if it comes after the
      expiry that it states, or states none. Otherwise it is refused as badly signed unless it asks for exactly that
      artifact's id, name and expiry. */
  lemma SignatureCoversTheLink(env: Env, s: State, d: nat, id: string, q: Asked)
    requires CollisionFree(env.mac) && Reachable(env, s) && d in s.downloads && s.downloads[d].phase.Answered?
    requires id in s.published && Linkable(s.published[id].artifact) && Ask(DOWNLOAD, s.downloads[d].target) == Some(q)
    requires var link := Ask(DOWNLOAD, LinkOf(env.mac, s.published[id].artifact));
             link.Some? && q.signature == link.value.signature
    ensures var a, answer := s.published[id].artifact, s.downloads[d].phase;
            if q.expires.None? || Unix(answer.at) > q.expires.value then answer.status == 410
            else if q.id != a.id || q.name != a.name || q.expires.value != Unix(a.expires) then answer.status == 403
            else answer.status == 200 || answer.status == 404
  {
    ReachableInv(env, s);
    PublishedReadsBack(env, s, id);
    PublishedNulFree(s, id);
    AnswerOfCheck(env, s, d);
    CheckOfSigned(env, s.published[id].artifact, s.downloads[d].target, q, s.downloads[d].phase.at);
  }

  /** A request whose path does not have two parts is not found. */
  lemma BadPathIsNotFound(env: Env, s: State, d: nat)
    requires Reachable(env, s) && d in s.downloads && s.downloads[d].phase.Answered?
    requires Ask(DOWNLOAD, s.downloads[d].target).None?
    ensures s.downloads[d].phase.status == 404
  {
    ReachableInv(env, s);
    assert DownloadOk(env, s, d);
  }

  /** Publishing keeps what the file holds and lets the link live for the store's lifetime from then on. */
  lemma PublishSetsExpiry(env: Env, s: State, id: string, now: int, s': State)
    requires Step(env, s, Publish(id, now), s')
    ensures id in s'.published && id in s'.store.items && id !in s'.captures && s'.store.files == s.store.files
    ensures var a := s'.published[id].artifact;
            && a.expires == now + env.ttl && a.id == id && a.name == NameOf(id, s.captures[id])
            && a.name in s.store.files && s'.published[id].content == s.store.files[a.name]
            && a.size == |s.store.files[a.name]| && s'.store.items[id] == a
  {
  }

  /** A cleanup leaves no item that has expired by its time, and no file of such an item. */
  lemma CleanUpIsComplete(env: Env, s: State, now: int, s': State, id: string)
    requires Reachable(env, s) && Step(env, s, CleanUp(now), s') && id in s.store.items
    ensures if s.store.items[id].expires < now then id !in s'.store.items && s.store.items[id].name !in s'.store.files
            else id in s'.store.items && s.store.items[id].name in s'.store.files
  {
    ReachableInv(env, s);
    assert ItemOk(s, id);
    StoreStep(env, s, CleanUp(now), s');
    if id in s'.store.items {
      assert ItemOk(s', id);
    }
  }

  /** Conversely, a file is served only to a request that reads like the link of one published artifact, no later
      than the second of its expiry, and then it is that artifact's whole file. */
  lemma OnlyLinksAreServed(env: Env, s: State, d: nat)
    requires Reachable(env, s) && d in s.downloads
    requires s.downloads[d].phase.Answered? && s.downloads[d].phase.status == 200
    ensures exists id ::
              && id in s.published && Linkable(s.published[id].artifact)
              && Ask(DOWNLOAD, s.downloads[d].target) == Ask(DOWNLOAD, LinkOf(env.mac, s.published[id].artifact))
              && ServedAs(env, s.published[id], s.downloads[d].target, s.downloads[d].phase)
  {
    ReachableInv(env, s);
    assert DownloadOk(env, s, d);
    var w := s.downloads[d];
    var id :| id in s.published && ServedAs(env, s.published[id], w.target, w.phase);
    AskedInRange(DOWNLOAD, w.target);
    PublishedReadsBack(env, s, id);
  }

  lemma AskedInRange(l: Layout, target: string)
    requires Ask(l, target).Some? && Ask(l, target).value.expires.Some?
    ensures -TWO_63 <= Ask(l, target).value.expires.value < TWO_63
  {
    var i := Index(target, '?');
    IntInRange(Get(Split(if i < |target| then target[i + 1..] else "", '&'), l.expiresKey));
  }

  /** The directory holds a file exactly for each capture in progress, each unremoved item and each abandoned
      capture: nothing else leaks, and nothing that a link can still reach is gone. */
  lemma FilesAreOwned(env: Env, s: State, name: string)
    requires Reachable(env, s)
    ensures name in s.store.files <==> Owned(s, name) || Stranded(s, name)
  {
    ReachableInv(env, s);
    if x :| x in s.captures && NameOf(x, s.captures[x]) == name {
      assert CaptureOk(s, x);
    } else if x :| x in s.store.items && s.store.items[x].name == name {
      assert ItemOk(s, x);
    } else if x :| x in s.abandoned && NameOf(x, s.abandoned[x]) == name {
      assert AbandonedOk(s, x);
    }
  }

  lemma StrandedNotOwned(s: State, name: string)
    requires StoreInv(s) && Stranded(s, name)
    ensures !Owned(s, name)
  {
    var x :| x in s.abandoned && NameOf(x, s.abandoned[x]) == name;
    assert AbandonedOk(s, x);
    if y :| y in s.captures && NameOf(y, s.captures[y]) == name {
      assert CaptureOk(s, y);
      NamesDiffer(x, s.abandoned[x], y, s.captures[y]);
    } else if y :| y in s.store.items && s.store.items[y].name == name {
      assert ItemOk(s, y) && PublicationOk(s, y);
      PublishedElsewhere(s, y, x, s.abandoned[x]);
    }
  }

  /** The kinds never overlap, and an abandoned file stays, unserved, whatever happens next. */
  lemma AbandonedStay(env: Env, s: State, a: Action, s': State, name: string)
    requires Reachable(env, s) && Step(env, s, a, s') && Stranded(s, name)
    ensures !Owned(s, name) && Stranded(s', name) && name in s'.store.files
  {
    ReachableInv(env, s);
    StrandedNotOwned(s, name);
    StoreStep(env, s, a, s');
    var x :| x in s.abandoned && NameOf(x, s.abandoned[x]) == name;
    AbandonedKept(env, s, a, s', x);
  }

  lemma AbandonedKept(env: Env, s: State, a: Action, s': State, x: string)
    requires StoreInv(s) && StoreInv(s') && Step(env, s, a, s') && x in s.abandoned
    ensures x in s'.abandoned && s'.abandoned[x] == s.abandoned[x] && NameOf(x, s.abandoned[x]) in s'.store.files
  {
    assert AbandonedOk(s, x);
    assert a.Abandon? ==> a.id != x;
    assert x in s'.abandoned && AbandonedOk(s', x);
  }
}
