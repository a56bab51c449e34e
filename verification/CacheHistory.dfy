/** What a sequence of cache operations leaves in the cache, stated against the history of the
    operations alone: latest store wins, bounded size, and when an entry may be missing. */
module CacheHistory {
  import opened Wrappers
  import opened Caching

  datatype Op =
    | Get(key: Key, now: int)
    | Put(key: Key, response: Response, ttl: int, generation: nat, now: int)
    | Invalidate

  ghost predicate Step(c: Cache, op: Op, c': Cache) {
    match op
    case Get(k, now) => c' == AfterGet(c, k, now)
    case Put(k, resp, ttl, generation, now) => PutStep(c, k, resp, ttl, generation, now, c')
    case Invalidate => c' == Caching.Invalidated(c)
  }

  ghost predicate StepAt(states: seq<Cache>, ops: seq<Op>, i: nat)
    requires i < |ops| < |states|
  {
    Step(states[i], ops[i], states[i + 1])
  }

  ghost predicate IsRun(states: seq<Cache>, ops: seq<Op>) {
    && |states| == |ops| + 1
    && states[0] == Cache(map[], 0)
    && (forall i :: 0 <= i < |ops| ==> StepAt(states, ops, i))
  }

  /** The operation is a store that the cache accepts in state c. */
  ghost predicate Stores(c: Cache, op: Op) {
    op.Put? && Accepts(c, op.ttl, op.generation)
  }

  /** The latest accepted store under k among the first n operations, since the last invalidation. */
  ghost function Latest(states: seq<Cache>, ops: seq<Op>, n: nat, k: Key): Option<Entry>
    requires n <= |ops| < |states|
  {
    if n == 0 || ops[n - 1].Invalidate? then None
    else if Stores(states[n - 1], ops[n - 1]) && ops[n - 1].key == k then
      Some(NewEntry(ops[n - 1].response, ops[n - 1].ttl, ops[n - 1].now))
    else Latest(states, ops, n - 1, k)
  }

  /** Key and time of every accepted store among the first n operations, since the last invalidation. */
  ghost function Stored(states: seq<Cache>, ops: seq<Op>, n: nat): set<(Key, int)>
    requires n <= |ops| < |states|
  {
    if n == 0 || ops[n - 1].Invalidate? then {}
    else if Stores(states[n - 1], ops[n - 1]) then
      Stored(states, ops, n - 1) + {(ops[n - 1].key, ops[n - 1].now)}
    else Stored(states, ops, n - 1)
  }

  /** The keys other than k that were stored no earlier than time t. */
  ghost function Others(stored: set<(Key, int)>, k: Key, t: int): set<Key> {
    set p | p in stored && p.0 != k && p.1 >= t :: p.0
  }

  /** The keys other than k of the stores accepted after the latest store under k. */
  ghost function Later(states: seq<Cache>, ops: seq<Op>, n: nat, k: Key): set<Key>
    requires n <= |ops| < |states|
  {
    if n == 0 || ops[n - 1].Invalidate? then {}
    else if !Stores(states[n - 1], ops[n - 1]) then Later(states, ops, n - 1, k)
    else if ops[n - 1].key == k then {}
    else Later(states, ops, n - 1, k) + {ops[n - 1].key}
  }

  /** The keys that can have displaced k: those stored no earlier by the clock, and those stored after it. */
  ghost function Rivals(states: seq<Cache>, ops: seq<Op>, n: nat, k: Key, t: int): set<Key>
    requires n <= |ops| < |states|
  {
    Others(Stored(states, ops, n), k, t) + Later(states, ops, n, k)
  }

  /** After the latest store under k, an operation's clock showed t or later. */
  ghost predicate Seen(states: seq<Cache>, ops: seq<Op>, n: nat, k: Key, t: int)
    requires n <= |ops| < |states|
  {
    && n > 0 && !ops[n - 1].Invalidate?
    && !(Stores(states[n - 1], ops[n - 1]) && ops[n - 1].key == k)
    && (t <= ops[n - 1].now || Seen(states, ops, n - 1, k, t))
  }

  ghost predicate Explained(states: seq<Cache>, ops: seq<Op>, n: nat, k: Key)
    requires n <= |ops| < |states|
  {
    var latest := Latest(states, ops, n, k);
    latest.Some? && k !in states[n].entries ==>
      Seen(states, ops, n, k, latest.value.expiresAt) ||
      |Rivals(states, ops, n, k, latest.value.storedAt)| >= MAX_ENTRIES
  }

  ghost predicate Faithful(states: seq<Cache>, ops: seq<Op>, n: nat)
    requires n <= |ops| < |states|
  {
    var entries := states[n].entries;
    && |entries| <= MAX_ENTRIES
    && (forall k :: k in entries ==> Latest(states, ops, n, k) == Some(entries[k]))
    && (forall k :: k in entries ==> (k, entries[k].storedAt) in Stored(states, ops, n))
    && (forall k :: Explained(states, ops, n, k))
  }

  lemma SubsetSize<T>(a: set<T>, b: set<T>)
    requires a <= b
    ensures |a| <= |b|
  {
    assert b == a + (b - a);
  }

  /** While k is not stored again its rivals only become more. */
  lemma RivalsGrow(states: seq<Cache>, ops: seq<Op>, n: nat, k: Key, t: int)
    requires n < |ops| < |states| && !ops[n].Invalidate? && !(Stores(states[n], ops[n]) && ops[n].key == k)
    ensures |Rivals(states, ops, n, k, t)| <= |Rivals(states, ops, n + 1, k, t)|
  {
    SubsetSize(Rivals(states, ops, n, k, t), Rivals(states, ops, n + 1, k, t));
  }

  lemma UnexpiredSize(entries: map<Key, Entry>, now: int)
    ensures |Unexpired(entries, now)| <= |entries|
  {
    SubsetSize(Unexpired(entries, now).Keys, entries.Keys);
  }

  lemma FaithfulAfterGet(states: seq<Cache>, ops: seq<Op>, n: nat)
    requires IsRun(states, ops) && n < |ops| && ops[n].Get?
    requires Faithful(states, ops, n)
    ensures Faithful(states, ops, n + 1)
  {
    var m := n + 1;
    assert StepAt(states, ops, n);
    SubsetSize(states[n + 1].entries.Keys, states[n].entries.Keys);
    forall k ensures Explained(states, ops, m, k) {
      assert Explained(states, ops, n, k);
      if Latest(states, ops, n, k).Some? {
        RivalsGrow(states, ops, n, k, Latest(states, ops, n, k).value.storedAt);
      }
    }
  }

  /** The key evicted by an accepted store has 256 rivals: the 255 that stay and the new one. */
  lemma EvictedIsExplained(states: seq<Cache>, ops: seq<Op>, n: nat, victim: Key)
    requires IsRun(states, ops) && n < |ops| && Stores(states[n], ops[n])
    requires Faithful(states, ops, n)
    requires var kept := Unexpired(states[n].entries, ops[n].now);
             Oldest(kept, victim) && ops[n].key !in kept && |kept| >= MAX_ENTRIES
    ensures |Rivals(states, ops, n + 1, victim, states[n].entries[victim].storedAt)| >= MAX_ENTRIES
  {
    var kept := Unexpired(states[n].entries, ops[n].now);
    var t := kept[victim].storedAt;
    var witnesses := kept.Keys - {victim} + {ops[n].key};
    forall k | k in witnesses ensures k in Rivals(states, ops, n + 1, victim, t) {
      if k in kept {
        assert (k, kept[k].storedAt) in Stored(states, ops, n + 1);
      }
    }
    assert |witnesses| == |kept.Keys - {victim}| + 1 && |kept.Keys - {victim}| == |kept| - 1;
    SubsetSize(witnesses, Rivals(states, ops, n + 1, victim, t));
  }

  lemma ExplainedAfterStore(states: seq<Cache>, ops: seq<Op>, n: nat, k: Key)
    requires IsRun(states, ops) && n < |ops| && Stores(states[n], ops[n])
    requires Faithful(states, ops, n)
    ensures Explained(states, ops, n + 1, k)
  {
    assert StepAt(states, ops, n);
    var kept := Unexpired(states[n].entries, ops[n].now);
    assert Explained(states, ops, n, k);
    if k != ops[n].key && Latest(states, ops, n, k).Some? && k !in states[n + 1].entries {
      if k in kept {
        assert Oldest(kept, k);
        EvictedIsExplained(states, ops, n, k);
      } else {
        RivalsGrow(states, ops, n, k, Latest(states, ops, n, k).value.storedAt);
      }
    }
  }

  lemma InsertedEntries(c: Cache, k: Key, e: Entry, now: int, c': Cache)
    requires |c.entries| <= MAX_ENTRIES && Inserted(c, k, e, now, c')
    ensures |c'.entries| <= MAX_ENTRIES
    ensures k in c'.entries && c'.entries[k] == e
    ensures forall x :: x in c'.entries && x != k ==> x in c.entries && c'.entries[x] == c.entries[x]
  {
    var kept := Unexpired(c.entries, now);
    UnexpiredSize(c.entries, now);
    if k !in kept && |kept| >= MAX_ENTRIES {
      var victim :| Oldest(kept, victim) && c'.entries == (kept - {victim})[k := e];
      assert c'.entries.Keys == kept.Keys - {victim} + {k};
    } else {
      assert c'.entries.Keys == kept.Keys + {k};
      if k in kept {
        assert kept.Keys + {k} == kept.Keys;
      }
    }
  }

  lemma FaithfulAfterStore(states: seq<Cache>, ops: seq<Op>, n: nat)
    requires IsRun(states, ops) && n < |ops| && Stores(states[n], ops[n])
    requires Faithful(states, ops, n)
    ensures Faithful(states, ops, n + 1)
  {
    var m := n + 1;
    assert StepAt(states, ops, n);
    InsertedEntries(states[n], ops[n].key, NewEntry(ops[n].response, ops[n].ttl, ops[n].now), ops[n].now, states[m]);
    forall k ensures Explained(states, ops, m, k) {
      ExplainedAfterStore(states, ops, n, k);
    }
  }

  lemma FaithfulAfterRejected(states: seq<Cache>, ops: seq<Op>, n: nat)
    requires IsRun(states, ops) && n < |ops| && ops[n].Put? && !Stores(states[n], ops[n])
    requires Faithful(states, ops, n)
    ensures Faithful(states, ops, n + 1)
  {
    var m := n + 1;
    assert StepAt(states, ops, n);
    forall k ensures Explained(states, ops, m, k) {
      assert Explained(states, ops, n, k);
      if Latest(states, ops, n, k).Some? {
        RivalsGrow(states, ops, n, k, Latest(states, ops, n, k).value.storedAt);
      }
    }
  }

  lemma FaithfulAfterInvalidate(states: seq<Cache>, ops: seq<Op>, n: nat)
    requires IsRun(states, ops) && n < |ops| && ops[n].Invalidate?
    ensures Faithful(states, ops, n + 1)
  {
    assert StepAt(states, ops, n);
  }

  lemma FaithfulAtStart(states: seq<Cache>, ops: seq<Op>)
    requires IsRun(states, ops)
    ensures Faithful(states, ops, 0)
  {
    assert states[0].entries == map[];
  }

  lemma FaithfulStep(states: seq<Cache>, ops: seq<Op>, n: nat, next: nat)
    requires IsRun(states, ops) && n < |ops| && next == n + 1
    requires Faithful(states, ops, n)
    ensures Faithful(states, ops, next)
  {
    if Stores(states[n], ops[n]) {
      FaithfulAfterStore(states, ops, n);
    } else if ops[n].Get? {
      FaithfulAfterGet(states, ops, n);
    } else if ops[n].Put? {
      FaithfulAfterRejected(states, ops, n);
    } else {
      FaithfulAfterInvalidate(states, ops, n);
    }
  }

  lemma {:induction false} AlwaysFaithful(states: seq<Cache>, ops: seq<Op>, n: nat)
    requires IsRun(states, ops) && n <= |ops|
    ensures Faithful(states, ops, n)
  {
    if n == 0 {
      FaithfulAtStart(states, ops);
    } else {
      AlwaysFaithful(states, ops, n - 1);
      FaithfulStep(states, ops, n - 1, n);
    }
  }

  // ---------------------------------------------------------------------
  // Main results
  // ---------------------------------------------------------------------

  /** Whatever the clock does, there are never more than 256 entries. */
  lemma {:induction false} SizeBounded(states: seq<Cache>, ops: seq<Op>, n: nat)
    requires IsRun(states, ops) && n <= |ops|
    ensures |states[n].entries| <= 256
  {
    if n > 0 {
      SizeBounded(states, ops, n - 1);
      assert StepAt(states, ops, n - 1);
      SizeStep(states[n - 1], ops[n - 1], states[n]);
    }
  }

  lemma SizeStep(c: Cache, op: Op, c': Cache)
    requires |c.entries| <= MAX_ENTRIES && Step(c, op, c')
    ensures |c'.entries| <= MAX_ENTRIES
  {
    if op.Get? {
      SubsetSize(c'.entries.Keys, c.entries.Keys);
    } else if Stores(c, op) {
      InsertedEntries(c, op.key, NewEntry(op.response, op.ttl, op.now), op.now, c');
    }
  }

  /** A hit answers with the latest accepted store of exactly that key since the last invalidation, in the order in
      which the operations took the mutex, whatever their clocks showed. */
  lemma HitIsLatestStore(states: seq<Cache>, ops: seq<Op>, n: nat)
    requires IsRun(states, ops) && n < |ops| && ops[n].Get?
    requires Hits(states[n], ops[n].key, ops[n].now)
    ensures Latest(states, ops, n, ops[n].key) == Some(states[n].entries[ops[n].key])
    ensures ops[n].now < states[n].entries[ops[n].key].expiresAt
  {
    AlwaysFaithful(states, ops, n);
  }

  /** A lookup misses the latest store under its key only if the clock of the lookup, or of an operation since that
      store, has reached the expiry, or if 256 other keys were stored no earlier by the clock or after it. */
  lemma MissNeedsExpiryOrRivals(states: seq<Cache>, ops: seq<Op>, n: nat)
    requires IsRun(states, ops) && n < |ops| && ops[n].Get? && !Hits(states[n], ops[n].key, ops[n].now)
    requires Latest(states, ops, n, ops[n].key).Some?
    ensures var e := Latest(states, ops, n, ops[n].key).value;
            || e.expiresAt <= ops[n].now
            || Seen(states, ops, n, ops[n].key, e.expiresAt)
            || |Rivals(states, ops, n, ops[n].key, e.storedAt)| >= 256
  {
    AlwaysFaithful(states, ops, n);
    assert Explained(states, ops, n, ops[n].key);
  }

  // ---------------------------------------------------------------------
  // When the clocks are read in the order of the operations
  // ---------------------------------------------------------------------

  /** The times that the operations were given do not decrease in the order in which they took the mutex. */
  ghost predicate ClockMonotone(ops: seq<Op>) {
    forall i, j :: 0 <= i < j < |ops| && !ops[i].Invalidate? && !ops[j].Invalidate? ==> ops[i].now <= ops[j].now
  }

  lemma {:induction false} LatestTime(states: seq<Cache>, ops: seq<Op>, n: nat, k: Key)
    requires n <= |ops| < |states| && Latest(states, ops, n, k).Some?
    ensures exists i :: 0 <= i < n && ops[i].Put? && ops[i].now == Latest(states, ops, n, k).value.storedAt
  {
    if Stores(states[n - 1], ops[n - 1]) && ops[n - 1].key == k {
      assert ops[n - 1].now == Latest(states, ops, n, k).value.storedAt;
    } else {
      LatestTime(states, ops, n - 1, k);
    }
  }

  lemma {:induction false} LaterIsNoEarlier(states: seq<Cache>, ops: seq<Op>, n: nat, k: Key)
    requires n <= |ops| < |states| && ClockMonotone(ops) && Latest(states, ops, n, k).Some?
    ensures Later(states, ops, n, k) <= Others(Stored(states, ops, n), k, Latest(states, ops, n, k).value.storedAt)
  {
    if !(Stores(states[n - 1], ops[n - 1]) && ops[n - 1].key == k) {
      LaterIsNoEarlier(states, ops, n - 1, k);
      LatestTime(states, ops, n - 1, k);
      if Stores(states[n - 1], ops[n - 1]) {
        assert (ops[n - 1].key, ops[n - 1].now) in Stored(states, ops, n);
      }
    }
  }

  lemma {:induction false} SeenByAnEarlierOne(states: seq<Cache>, ops: seq<Op>, n: nat, k: Key, t: int)
    requires n <= |ops| < |states| && Seen(states, ops, n, k, t)
    ensures exists i :: 0 <= i < n && !ops[i].Invalidate? && t <= ops[i].now
  {
    if ops[n - 1].now < t {
      SeenByAnEarlierOne(states, ops, n - 1, k, t);
    }
  }

  /** Then the age of a hit is not negative. */
  lemma HitAgeNotNegative(states: seq<Cache>, ops: seq<Op>, n: nat)
    requires IsRun(states, ops) && ClockMonotone(ops) && n < |ops| && ops[n].Get?
    requires Hits(states[n], ops[n].key, ops[n].now)
    ensures states[n].entries[ops[n].key].storedAt <= ops[n].now
  {
    HitIsLatestStore(states, ops, n);
    LatestTime(states, ops, n, ops[n].key);
  }

  /** And a latest store that has not expired is missed only behind 256 other keys stored no earlier. */
  lemma MissOfLiveStoreNeedsFullCache(states: seq<Cache>, ops: seq<Op>, n: nat)
    requires IsRun(states, ops) && ClockMonotone(ops) && n < |ops| && ops[n].Get?
    requires !Hits(states[n], ops[n].key, ops[n].now)
    requires var latest := Latest(states, ops, n, ops[n].key); latest.Some? && Fresh(latest.value, ops[n].now)
    ensures var e := Latest(states, ops, n, ops[n].key).value;
            |Others(Stored(states, ops, n), ops[n].key, e.storedAt)| >= 256
  {
    var k := ops[n].key;
    var e := Latest(states, ops, n, k).value;
    MissNeedsExpiryOrRivals(states, ops, n);
    LaterIsNoEarlier(states, ops, n, k);
    assert Rivals(states, ops, n, k, e.storedAt) == Others(Stored(states, ops, n), k, e.storedAt);
    if Seen(states, ops, n, k, e.expiresAt) {
      SeenByAnEarlierOne(states, ops, n, k, e.expiresAt);
    }
  }
}
