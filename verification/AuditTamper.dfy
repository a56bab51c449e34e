/** What an accepted log proves: with a collision-free hash, events of a genuine chain can only be cut off at its
    two ends, and one trusted hash pins everything before it. */
module AuditTamper {
  import opened AuditEvent
  import opened AuditVerify

  ghost predicate SingleChain(log: seq<Event>) {
    forall i, j :: 0 <= i < |log| && 0 <= j < |log| ==> log[i].chainId == log[j].chainId
  }

  /** What one process writes: the first event links to nothing, each later one to its predecessor. */
  ghost predicate Genuine(c: Codec, chain: seq<Event>) {
    && SingleChain(chain)
    && (forall i :: 0 <= i < |chain| ==> HashOk(c, chain[i]))
    && (chain != [] ==> chain[0].previousHash == "")
    && (forall i :: 0 < i < |chain| ==> chain[i].previousHash == chain[i - 1].hash)
  }

  ghost predicate ContiguousRun(log: seq<Event>, chain: seq<Event>, at: nat) {
    at + |log| <= |chain| && log == chain[at..at + |log|]
  }

  lemma HashNotEmpty(c: Codec, e: Event)
    requires c.CollisionFree() && HashOk(c, e)
    ensures e.hash != ""
  {
  }

  /** Equal hashes at two places would descend to the empty first link. */
  lemma {:induction false} HashesDistinct(c: Codec, chain: seq<Event>, i: nat, j: nat)
    requires c.Faithful() && c.CollisionFree() && Genuine(c, chain) && i < j < |chain|
    ensures chain[i].hash != chain[j].hash
  {
    if chain[i].hash == chain[j].hash {
      HashDeterminesEvent(c, chain[i], chain[j]);
      if i == 0 {
        HashNotEmpty(c, chain[j - 1]);
      } else {
        HashesDistinct(c, chain, i - 1, j - 1);
      }
    }
  }

  /** In an accepted log of one chain, each event links to the one before it. */
  lemma SingleChainLinks(c: Codec, log: seq<Event>, i: nat)
    requires Accepts(c, log) && SingleChain(log) && i < |log|
    ensures LocallyOk(c, log[i])
    ensures i > 0 ==> log[i].previousHash == log[i - 1].hash
  {
    AcceptsIffLinked(c, log);
    assert EventLinked(c, log, i);
    if i > 0 {
      assert ChainNeighbours(log, i - 1, i);
    }
  }

  lemma SuccessorPosition(c: Codec, chain: seq<Event>, a: nat, b: nat)
    requires c.Faithful() && c.CollisionFree() && Genuine(c, chain) && a < |chain| && b < |chain|
    requires chain[b].previousHash == chain[a].hash
    ensures b == a + 1
  {
    HashNotEmpty(c, chain[a]);
    if b - 1 < a {
      HashesDistinct(c, chain, b - 1, a);
    } else if a < b - 1 {
      HashesDistinct(c, chain, a, b - 1);
    }
  }

  lemma EventsOfOneChain(chain: seq<Event>, log: seq<Event>)
    requires SingleChain(chain) && forall e :: e in log ==> e in chain
    ensures SingleChain(log)
  {
    forall i, j | 0 <= i < |log| && 0 <= j < |log| ensures log[i].chainId == log[j].chainId {
      assert log[i] in chain && log[j] in chain;
    }
  }

  lemma NextPosition(c: Codec, chain: seq<Event>, log: seq<Event>, i: nat, a: nat)
    requires c.Faithful() && c.CollisionFree() && Genuine(c, chain)
    requires Accepts(c, log) && SingleChain(log)
    requires i + 1 < |log| && log[i + 1] in chain && a < |chain| && log[i] == chain[a]
    ensures a + 1 < |chain| && log[i + 1] == chain[a + 1]
  {
    var b :| 0 <= b < |chain| && chain[b] == log[i + 1];
    SingleChainLinks(c, log, i + 1);
    SuccessorPosition(c, chain, a, b);
  }

  lemma {:induction false} RunFrom(c: Codec, chain: seq<Event>, log: seq<Event>, at: nat, n: nat)
    requires c.Faithful() && c.CollisionFree() && Genuine(c, chain)
    requires Accepts(c, log) && forall e :: e in log ==> e in chain
    requires 0 < n <= |log| && at < |chain| && log[0] == chain[at]
    ensures at + n <= |chain| && forall i :: 0 <= i < n ==> log[i] == chain[at + i]
  {
    if n > 1 {
      RunFrom(c, chain, log, at, n - 1);
      EventsOfOneChain(chain, log);
      NextPosition(c, chain, log, n - 2, at + (n - 2));
    }
  }

  /** Deleting, reordering or duplicating events of a genuine chain is accepted only if what is left is a contiguous
      run of that chain; and every contiguous run of a chain that verifies does verify. */
  lemma RearrangementDetected(c: Codec, chain: seq<Event>, log: seq<Event>)
    requires c.Faithful() && c.CollisionFree() && Genuine(c, chain) && Accepts(c, chain)
    requires log != [] && forall e :: e in log ==> e in chain
    ensures Accepts(c, log) <==> exists at: nat :: ContiguousRun(log, chain, at)
  {
    if Accepts(c, log) {
      assert log[0] in chain;
      var at :| 0 <= at < |chain| && chain[at] == log[0];
      RunFrom(c, chain, log, at, |log|);
      assert ContiguousRun(log, chain, at);
    }
    if exists at: nat :: ContiguousRun(log, chain, at) {
      var at: nat :| ContiguousRun(log, chain, at);
      SliceAccepted(c, chain, at, at + |log|);
    }
  }

  ghost predicate RunOf(log: seq<Event>, chain: seq<Event>) {
    exists at: nat :: ContiguousRun(log, chain, at)
  }

  /** The chain verifies, is genuine and has all events of the log. */
  ghost predicate Covers(c: Codec, chain: seq<Event>, log: seq<Event>) {
    Genuine(c, chain) && Accepts(c, chain) && forall e :: e in log ==> e in chain
  }

  lemma PartDetected(c: Codec, chain: seq<Event>, part: seq<Event>)
    requires c.Faithful() && c.CollisionFree() && Covers(c, chain, part)
    ensures Accepts(c, part) <==> RunOf(part, chain)
  {
    if part == [] {
      assert ContiguousRun(part, chain, 0);
    } else {
      RearrangementDetected(c, chain, part);
    }
  }

  ghost predicate AllCovered(c: Codec, chains: map<string, seq<Event>>, log: seq<Event>) {
    forall id :: id in ChainsTo(log, |log|) ==> id in chains && Covers(c, chains[id], Project(log, id))
  }

  /** The same for a log of many chains: it is accepted exactly if it holds a contiguous run of each of them. */
  lemma RearrangementDetectedInEachChain(c: Codec, chains: map<string, seq<Event>>, log: seq<Event>)
    requires c.Faithful() && c.CollisionFree() && ChainsNulFree(log) && AllCovered(c, chains, log)
    ensures Accepts(c, log) <==> forall id :: id in ChainsTo(log, |log|) ==> RunOf(Project(log, id), chains[id])
  {
    AcceptsIffEachChain(c, log);
    forall id | id in ChainsTo(log, |log|)
      ensures Accepts(c, Project(log, id)) <==> RunOf(Project(log, id), chains[id])
    {
      PartDetected(c, chains[id], Project(log, id));
    }
  }

  lemma {:induction false} SameFromTheEnd(c: Codec, a: seq<Event>, b: seq<Event>, k: nat)
    requires c.Faithful() && c.CollisionFree()
    requires Accepts(c, a) && SingleChain(a) && Accepts(c, b) && SingleChain(b)
    requires k < |a| && k < |b| && a[|a| - 1].hash == b[|b| - 1].hash
    ensures a[|a| - 1 - k] == b[|b| - 1 - k]
  {
    var i, j := |a| - 1 - k, |b| - 1 - k;
    SingleChainLinks(c, a, i);
    SingleChainLinks(c, b, j);
    if k > 0 {
      SameFromTheEnd(c, a, b, k - 1);
      SingleChainLinks(c, a, i + 1);
      SingleChainLinks(c, b, j + 1);
    }
    HashDeterminesEvent(c, a[i], b[j]);
  }

  /** Two accepted logs of one chain that end in the same hash: the shorter is a suffix of the longer. */
  lemma LastHashPinsHistory(c: Codec, a: seq<Event>, b: seq<Event>)
    requires c.Faithful() && c.CollisionFree()
    requires Accepts(c, a) && SingleChain(a) && Accepts(c, b) && SingleChain(b)
    requires 0 < |a| <= |b| && a[|a| - 1].hash == b[|b| - 1].hash
    ensures a == b[|b| - |a|..]
  {
    forall i | 0 <= i < |a| ensures a[i] == b[|b| - |a| + i] {
      SameFromTheEnd(c, a, b, |a| - 1 - i);
    }
  }

  /** Against the last hash of a genuine chain, no accepted log of one chain holds anything but the end of that
      chain. */
  lemma TrustedHeadPinsChain(c: Codec, chain: seq<Event>, log: seq<Event>)
    requires c.Faithful() && c.CollisionFree() && Genuine(c, chain) && Accepts(c, chain)
    requires Accepts(c, log) && SingleChain(log)
    requires chain != [] && log != [] && log[|log| - 1].hash == chain[|chain| - 1].hash
    ensures |log| <= |chain| && log == chain[|chain| - |log|..]
  {
    if |log| > |chain| {
      var at := |log| - |chain|;
      SameFromTheEnd(c, log, chain, |chain| - 1);
      SingleChainLinks(c, log, at);
      SingleChainLinks(c, log, at - 1);
    } else {
      LastHashPinsHistory(c, log, chain);
    }
  }
}
