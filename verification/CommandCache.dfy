/** The generation-guarded, bounded, expiring cache of command responses
    (internal/agent/command_cache.go). */
module Caching {
  import opened Wrappers
  import opened Numerals

  const MAX_TTL: int := 60 * SECOND
  const MAX_ENTRIES: nat := 256

  datatype Request = Request(command: string, workdir: string, stdin: string,
                             timeoutSeconds: int, ttlSeconds: int, fileRefs: nat)

  datatype Response = Response(exitCode: int, stdout: string, stderr: string, timedOut: bool,
                               truncated: bool, durationMs: int, cacheHit: bool, cacheAgeMs: int,
                               workdir: string, inputFiles: seq<string>, attachments: seq<string>)

  // The six fields whose JSON text is hashed into a cache key. The hash is taken to be collision free.
  datatype Key = Key(scope: string, workdir: string, command: string, stdin: string,
                     timeoutSeconds: int, ttlSeconds: int)

  datatype Entry = Entry(storedAt: int, expiresAt: int, response: Response)

  datatype Cache = Cache(entries: map<Key, Entry>, generation: nat)

  function KeyOf(scope: string, workdir: string, req: Request): Key {
    Key(scope, workdir, req.command, req.stdin, req.timeoutSeconds, req.ttlSeconds)
  }

  /** A key stands for exactly one session scope, directory, command, input, time limit and lifetime. */
  lemma KeysDistinguish(scope: string, workdir: string, req: Request, scope': string, workdir': string, req': Request)
    ensures KeyOf(scope, workdir, req) == KeyOf(scope', workdir', req') <==>
            && scope == scope' && workdir == workdir' && req.command == req'.command && req.stdin == req'.stdin
            && req.timeoutSeconds == req'.timeoutSeconds && req.ttlSeconds == req'.ttlSeconds
  {
  }

  function Ttl(req: Request): int {
    Wrap64(req.ttlSeconds * SECOND)
  }

  function Clamp(ttl: int): int {
    if ttl > MAX_TTL then MAX_TTL else ttl
  }

  predicate Fresh(e: Entry, now: int) {
    now < e.expiresAt
  }

  function Unexpired(entries: map<Key, Entry>, now: int): map<Key, Entry> {
    map k | k in entries && Fresh(entries[k], now) :: entries[k]
  }

  ghost predicate Oldest(entries: map<Key, Entry>, k: Key) {
    k in entries && forall x :: x in entries ==> entries[k].storedAt <= entries[x].storedAt
  }

  // ---------------------------------------------------------------------
  // The three operations, as relations between cache values
  // ---------------------------------------------------------------------

  /** The state after a lookup: an expired entry found under the key is dropped. */
  function AfterGet(c: Cache, k: Key, now: int): Cache {
    if k in c.entries && !Fresh(c.entries[k], now) then c.(entries := c.entries - {k}) else c
  }

  predicate Hits(c: Cache, k: Key, now: int) {
    k in c.entries && Fresh(c.entries[k], now)
  }

  function NewEntry(resp: Response, ttl: int, now: int): Entry {
    Entry(now, now + Clamp(ttl), resp)
  }

  predicate Accepts(c: Cache, ttl: int, generation: nat) {
    ttl > 0 && c.generation == generation
  }

  /** An accepted store prunes, evicts one oldest entry if the key is new and the cache is full, and inserts. */
  ghost predicate Inserted(c: Cache, k: Key, e: Entry, now: int, c': Cache) {
    var kept := Unexpired(c.entries, now);
    c'.generation == c.generation &&
    if k !in kept && |kept| >= MAX_ENTRIES then
      exists victim :: Oldest(kept, victim) && c'.entries == (kept - {victim})[k := e]
    else
      c'.entries == kept[k := e]
  }

  ghost predicate PutStep(c: Cache, k: Key, resp: Response, ttl: int, generation: nat, now: int, c': Cache) {
    if Accepts(c, ttl, generation) then Inserted(c, k, NewEntry(resp, ttl, now), now, c') else c' == c
  }

  function Invalidated(c: Cache): Cache {
    Cache(map[], (c.generation + 1) % TWO_64)
  }

  // ---------------------------------------------------------------------
  // The object
  // ---------------------------------------------------------------------

  /** Every method runs with the mutex held from its first read of the map to its last write, so each is one step. */
  class CommandCache {
    var entries: map<Key, Entry>
    var generation: nat

    function State(): Cache
      reads this
    {
      Cache(entries, generation)
    }

    constructor ()
      ensures State() == Cache(map[], 0)
    {
      entries, generation := map[], 0;
    }

    method Get(scope: string, workdir: string, req: Request, now: int)
      returns (resp: Option<Response>, age: int, observed: nat)
      modifies this
      ensures scope == "" ==> resp == None && observed == 0 && State() == old(State())
      ensures scope != "" ==>
                var c, k := old(State()), KeyOf(scope, workdir, req);
                && State() == AfterGet(c, k, now)
                && observed == c.generation
                && (resp.Some? <==> Hits(c, k, now))
                && (resp.Some? ==> resp.value == c.entries[k].response && age == now - c.entries[k].storedAt)
                && (resp.Some? <==> k in c.entries && now < c.entries[k].expiresAt)
                && entries == if k in c.entries && now >= c.entries[k].expiresAt then c.entries - {k} else c.entries
    {
      if scope == "" {
        return None, 0, 0;
      }
      var key := KeyOf(scope, workdir, req);
      observed := generation;
      if key !in entries {
        return None, 0, observed;
      }
      var entry := entries[key];
      if !(now < entry.expiresAt) {
        entries := entries - {key};
        return None, 0, observed;
      }
      return Some(entry.response), now - entry.storedAt, observed;
    }

    method PutIfGeneration(scope: string, workdir: string, req: Request, resp: Response, ttl: int, observed: nat,
                           now: int)
      returns (stored: bool)
      modifies this
      ensures scope == "" ==> !stored && State() == old(State())
      ensures scope != "" ==>
                && stored == Accepts(old(State()), ttl, observed)
                && PutStep(old(State()), KeyOf(scope, workdir, req), resp, ttl, observed, now, State())
    {
      if scope == "" || ttl <= 0 {
        return false;
      }
      var lifetime := ttl;
      if lifetime > MAX_TTL {
        lifetime := MAX_TTL;
      }
      var key := KeyOf(scope, workdir, req);
      var entry := Entry(now, now + lifetime, resp);
      if generation != observed {
        return false;
      }
      PruneExpired(now);
      if key !in entries && |entries| >= MAX_ENTRIES {
        EvictOldest();
      }
      entries := entries[key := entry];
      return true;
    }

    method InvalidateAll() returns (removed: nat)
      modifies this
      ensures removed == |old(entries)|
      ensures State() == Invalidated(old(State()))
      ensures entries == map[] && generation == (old(generation) + 1) % 0x1_0000_0000_0000_0000
    {
      removed := |entries|;
      entries := map[];
      generation := (generation + 1) % TWO_64;
    }

    /** The keys may be visited in any order, as a Go map range does. */
    method PruneExpired(now: int)
      modifies this`entries
      ensures entries == Unexpired(old(entries), now)
    {
      var pending := entries.Keys;
      while pending != {}
        invariant pending <= old(entries).Keys
        invariant entries ==
                  map k | k in old(entries) && (k in pending || Fresh(old(entries)[k], now)) :: old(entries)[k]
      {
        var k :| k in pending;
        pending := pending - {k};
        if !Fresh(entries[k], now) {
          entries := entries - {k};
        }
      }
    }

    method EvictOldest()
      modifies this`entries
      ensures old(entries) == map[] ==> entries == old(entries)
      ensures old(entries) != map[] ==>
                exists victim :: Oldest(old(entries), victim) && entries == old(entries) - {victim}
    {
      var pending := entries.Keys;
      var oldest: Option<Key> := None;
      while pending != {}
        invariant pending <= entries.Keys
        invariant oldest == None <==> pending == entries.Keys
        invariant oldest.Some? ==> oldest.value in entries
        invariant oldest.Some? ==>
                    forall x :: x in entries && x !in pending ==> entries[oldest.value].storedAt <= entries[x].storedAt
        invariant entries == old(entries)
      {
        var k :| k in pending;
        pending := pending - {k};
        if oldest.None? || entries[k].storedAt < entries[oldest.value].storedAt {
          oldest := Some(k);
        }
      }
      if oldest.Some? {
        ghost var victim := oldest.value;
        assert Oldest(entries, victim);
        entries := entries - {oldest.value};
      }
    }
  }

  // ---------------------------------------------------------------------
  // What the request validation lets through (internal/agent/server.go)
  // ---------------------------------------------------------------------

  /** The guard of the handler: the product is taken in 64 bits before it is compared. */
  predicate TtlValid(seconds: int) {
    seconds >= 0 && Wrap64(seconds * SECOND) <= MAX_TTL
  }

  /** Which values the guard lets through, for all of them: those whose product wraps to a negative duration or to
      one of at most a minute. Exactly the latter, apart from zero, can be stored. */
  lemma TtlValidExactly(seconds: int)
    ensures TtlValid(seconds) <==>
            seconds >= 0 && (Bits64(seconds * SECOND) >= TWO_63 || Bits64(seconds * SECOND) <= MAX_TTL)
    ensures TtlValid(seconds) && Wrap64(seconds * SECOND) > 0 <==>
            seconds >= 0 && 0 < Bits64(seconds * SECOND) <= MAX_TTL
  {
    WrapOfBits(seconds * SECOND);
  }

  /** So the documented range "between 0 and 60" is what the guard checks as long as the product does not wrap. */
  lemma TtlRangeWithoutWrap(seconds: int)
    requires seconds <= 9_223_372_036
    ensures TtlValid(seconds) <==> 0 <= seconds <= 60
  {
    if seconds >= 0 {
      assert Wrap64(seconds * SECOND) == seconds * SECOND;
    }
  }

  /** One second more wraps to a negative duration and passes; twice as much wraps to 290 ms and is even stored. */
  lemma TtlRangeFailsOnWrap(c: Cache)
    ensures TtlValid(9_223_372_037) && Wrap64(9_223_372_037 * SECOND) < 0
    ensures !Accepts(c, Wrap64(9_223_372_037 * SECOND), c.generation)
    ensures TtlValid(18_446_744_074) && Wrap64(18_446_744_074 * SECOND) == 290_448_384
    ensures Accepts(c, Wrap64(18_446_744_074 * SECOND), c.generation)
  {
  }

  /** Whatever passes validation, an entry that is stored lives between 1 ns and 60 s. */
  lemma StoredLifetime(c: Cache, req: Request, generation: nat, resp: Response, now: int)
    requires TtlValid(req.ttlSeconds) && Accepts(c, Ttl(req), generation)
    ensures var e := NewEntry(resp, Ttl(req), now);
            && e.response == resp && e.storedAt == now && now < e.expiresAt <= now + 60 * SECOND
            && (req.ttlSeconds <= 60 ==> e.expiresAt == now + req.ttlSeconds * SECOND)
  {
    WrapOfBits(req.ttlSeconds * SECOND);
  }

  /** An accepted store leaves no expired entry, keeps every other one but at most the oldest, and evicts that one
      only when the cache would otherwise hold more than 256. */
  lemma StoreKeeps(c: Cache, k: Key, resp: Response, ttl: int, generation: nat, now: int, c': Cache)
    requires Accepts(c, ttl, generation) && PutStep(c, k, resp, ttl, generation, now, c')
    ensures k in c'.entries && c'.entries[k].response == resp && c'.generation == c.generation
    ensures forall x :: x in c'.entries ==> now < c'.entries[x].expiresAt
    ensures forall x :: x in c'.entries && x != k ==> x in c.entries && c'.entries[x] == c.entries[x]
    ensures var lost := set x | x in c.entries && x != k && now < c.entries[x].expiresAt && x !in c'.entries;
            && |lost| <= 1
            && forall x :: x in lost ==> |c'.entries| >= 256 && forall y :: y in c'.entries && y != k ==>
                 c.entries[x].storedAt <= c.entries[y].storedAt
  {
    var kept := Unexpired(c.entries, now);
    var lost := set x | x in c.entries && x != k && now < c.entries[x].expiresAt && x !in c'.entries;
    if k !in kept && |kept| >= MAX_ENTRIES {
      var victim :| Oldest(kept, victim) && c'.entries == (kept - {victim})[k := NewEntry(resp, ttl, now)];
      assert c'.entries.Keys == kept.Keys - {victim} + {k};
      assert lost == {victim};
    } else {
      assert lost == {};
    }
  }

  // ---------------------------------------------------------------------
  // The generation guard
  // ---------------------------------------------------------------------

  function InvalidatedTimes(c: Cache, n: nat): Cache {
    if n == 0 then c else Invalidated(InvalidatedTimes(c, n - 1))
  }

  lemma {:induction false} GenerationAfter(c: Cache, n: nat)
    requires c.generation < TWO_64
    ensures InvalidatedTimes(c, n).generation == (c.generation + n) % TWO_64
  {
    if n > 0 {
      GenerationAfter(c, n - 1);
      ModSucc(c.generation + (n - 1));
    }
  }

  lemma ModSucc(x: nat)
    ensures (x % TWO_64 + 1) % TWO_64 == (x + 1) % TWO_64
  {
    ModPeriod(x % TWO_64 + 1, x / TWO_64);
  }

  /** A store guarded by the generation of a lookup is accepted after n invalidations exactly
      when n is a multiple of 2^64. */
  lemma {:induction false} GuardIsExact(c: Cache, n: nat, ttl: int)
    requires c.generation < TWO_64 && ttl > 0
    ensures Accepts(InvalidatedTimes(c, n), ttl, c.generation) <==> n % TWO_64 == 0
  {
    GenerationAfter(c, n);
    var g, r, q := c.generation, n % TWO_64, n / TWO_64;
    assert g + n == (g + r) + q * TWO_64;
    ModPeriod(g + r, q);
  }
}
