/** The parallel downloads of one batch into one fresh directory, in every interleaving (downloadFiles and
    downloadOne in internal/agent/uploads.go). */
module UploadBatch {
  import opened Wrappers
  import opened Numerals
  import opened UploadNames

  /** What a download will meet. answered: an allowed host answers with status 200. declared: the announced length,
      -1 when there is none. breaks: the copy ends in an error. closes: the file closes without one. */
  datatype Remote = Remote(answered: bool, declared: int, body: seq<byte>, breaks: bool, closes: bool)

  /** One name and one remote file for each reference. */
  datatype Batch = Batch(names: seq<string>, remotes: seq<Remote>, limit: nat) {
    predicate Valid() {
      |names| == |remotes|
    }
  }

  datatype Phase = Ready | Writing | Removing | Saved | Failed

  /** result is None until all downloads have ended, then Some(success). */
  datatype State = State(dir: bool, files: map<string, seq<byte>>, phases: seq<Phase>, result: Option<bool>)

  datatype Action =
    | Refuse(i: nat)
    | Create(i: nat)
    | Copy(i: nat, upTo: nat)
    | Close(i: nat)
    | Break(i: nat)
    | Remove(i: nat)
    | Finish

  predicate Accepted(b: Batch, r: Remote) {
    r.answered && r.declared <= b.limit
  }

  predicate Good(b: Batch, r: Remote) {
    Accepted(b, r) && !r.breaks && r.closes && |r.body| <= b.limit
  }

  /** At most one byte more than the limit is read. */
  function Readable(b: Batch, r: Remote): nat {
    if |r.body| <= b.limit then |r.body| else b.limit + 1
  }

  function Turned(s: State, i: nat, phase: Phase): State
    requires i < |s.phases|
  {
    s.(phases := s.phases[i := phase])
  }

  predicate Settled(phase: Phase) {
    phase.Saved? || phase.Failed?
  }

  ghost predicate Init(b: Batch, s: State) {
    s.dir && s.files == map[] && s.result == None && s.phases == seq(|b.names|, _ => Ready)
  }

  /** The phase in which each action of a download can happen. */
  function Before(a: Action): Phase {
    match a
    case Refuse(i) => Ready
    case Create(i) => Ready
    case Remove(i) => Removing
    case _ => Writing
  }

  /** A download that created its file removes it again unless everything went well; one whose name is taken leaves
      the file alone. */
  ghost predicate Step(b: Batch, s: State, a: Action, s': State)
    requires b.Valid() && |s.phases| == |b.names|
  {
    if a.Finish? then
      && s.result == None && (forall i :: 0 <= i < |s.phases| ==> Settled(s.phases[i]))
      && var ok := Failed !in s.phases;
         s' == if ok then s.(result := Some(true)) else s.(dir := false, files := map[], result := Some(false))
    else
      && a.i < |s.phases| && s.phases[a.i] == Before(a)
      && var name, r := b.names[a.i], b.remotes[a.i];
         match a
         case Refuse(i) => !Accepted(b, r) && s' == Turned(s, i, Failed)
         case Create(i) =>
           && Accepted(b, r)
           && s' == if name in s.files then Turned(s, i, Failed)
                    else Turned(s.(files := s.files[name := []]), i, Writing)
         case Copy(i, upTo) =>
           && name in s.files && |s.files[name]| <= upTo <= Readable(b, r)
           && s' == s.(files := s.files[name := r.body[..upTo]])
         case Close(i) =>
           && !r.breaks && name in s.files && |s.files[name]| == Readable(b, r)
           && s' == Turned(s, i, if r.closes && |s.files[name]| <= b.limit then Saved else Removing)
         case Break(i) => r.breaks && s' == Turned(s, i, Removing)
         case Remove(i) => s' == Turned(s.(files := s.files - {name}), i, Failed)
  }

  ghost predicate Next(b: Batch, s: State, s': State)
    requires b.Valid() && |s.phases| == |b.names|
  {
    exists a :: Step(b, s, a, s')
  }

  ghost predicate NextAt(b: Batch, run: seq<State>, i: nat)
    requires b.Valid() && i + 1 < |run|
  {
    |run[i].phases| == |b.names| && Next(b, run[i], run[i + 1])
  }

  ghost predicate IsRun(b: Batch, run: seq<State>)
    requires b.Valid()
  {
    && |run| > 0 && Init(b, run[0])
    && forall i :: 0 <= i < |run| - 1 ==> NextAt(b, run, i)
  }

  ghost predicate Reachable(b: Batch, s: State)
    requires b.Valid()
  {
    exists run :: IsRun(b, run) && run[|run| - 1] == s
  }

  // ---------------------------------------------------------------------
  // Invariant
  // ---------------------------------------------------------------------

  /** The download created the file under its name and has not removed it. */
  predicate Owns(phase: Phase) {
    phase.Writing? || phase.Removing? || phase.Saved?
  }

  ghost predicate DownloadOk(b: Batch, s: State, i: nat)
    requires b.Valid() && i < |s.phases| == |b.names|
  {
    var name, r := b.names[i], b.remotes[i];
    && (Owns(s.phases[i]) ==> name in s.files && s.files[name] <= r.body && Accepted(b, r))
    && (s.phases[i].Saved? ==> s.files[name] == r.body && Good(b, r))
    && (s.phases[i].Removing? ==> !Good(b, r))
    && (s.phases[i].Failed? ==> !Good(b, r) || !Distinct(b.names))
  }

  ghost predicate OwnersDiffer(b: Batch, s: State)
    requires |s.phases| == |b.names|
  {
    forall i, j :: 0 <= i < j < |s.phases| && Owns(s.phases[i]) && Owns(s.phases[j]) ==> b.names[i] != b.names[j]
  }

  ghost predicate Owned(b: Batch, s: State, name: string)
    requires |s.phases| == |b.names|
  {
    exists i :: 0 <= i < |s.phases| && Owns(s.phases[i]) && b.names[i] == name
  }

  ghost predicate Working(b: Batch, s: State)
    requires b.Valid() && |s.phases| == |b.names|
  {
    && s.dir && OwnersDiffer(b, s)
    && (forall i :: 0 <= i < |s.phases| ==> DownloadOk(b, s, i))
    && (forall name :: name in s.files ==> Owned(b, s, name))
  }

  /** All names are distinct and all downloads go well. */
  ghost predicate AllGood(b: Batch)
    requires b.Valid()
  {
    Distinct(b.names) && forall i :: 0 <= i < |b.names| ==> Good(b, b.remotes[i])
  }

  ghost predicate Complete(b: Batch, s: State)
    requires b.Valid()
  {
    && s.dir && Distinct(b.names) && s.files.Keys == (set name | name in b.names)
    && forall i :: 0 <= i < |b.names| ==>
         && b.names[i] in s.files && s.files[b.names[i]] == b.remotes[i].body
         && |b.remotes[i].body| <= b.limit
  }

  ghost predicate Inv(b: Batch, s: State)
    requires b.Valid()
  {
    && |s.phases| == |b.names|
    && match s.result
       case None => Working(b, s)
       case Some(ok) =>
         && (forall i :: 0 <= i < |s.phases| ==> Settled(s.phases[i]))
         && (ok <==> AllGood(b))
         && if ok then Complete(b, s) else !s.dir && s.files == map[]
  }

  lemma MoveKeeps(b: Batch, s: State, a: Action, s': State, j: nat)
    requires b.Valid() && |s.phases| == |b.names| && Working(b, s) && !a.Finish? && Step(b, s, a, s')
    requires j < |s.phases|
    ensures DownloadOk(b, s', j)
  {
    assert DownloadOk(b, s, a.i) && DownloadOk(b, s, j);
    var name := b.names[a.i];
    if j == a.i && a.Create? && name in s.files {
      assert Owned(b, s, name);
    }
  }

  lemma OwnersStayApart(b: Batch, s: State, a: Action, s': State)
    requires b.Valid() && |s.phases| == |b.names| && Working(b, s) && !a.Finish? && Step(b, s, a, s')
    ensures OwnersDiffer(b, s')
  {
    forall i, j | 0 <= i < j < |s'.phases| && Owns(s'.phases[i]) && Owns(s'.phases[j])
      ensures b.names[i] != b.names[j]
    {
      assert DownloadOk(b, s, i) && DownloadOk(b, s, j);
      assert Owns(s.phases[i]) || (i == a.i && a.Create?);
      assert Owns(s.phases[j]) || (j == a.i && a.Create?);
    }
  }

  lemma FilesStayOwned(b: Batch, s: State, a: Action, s': State, name: string)
    requires b.Valid() && |s.phases| == |b.names| && Working(b, s) && !a.Finish? && Step(b, s, a, s')
    requires name in s'.files
    ensures Owned(b, s', name)
  {
    if a.Create? && name == b.names[a.i] && name !in s.files {
      assert Owns(s'.phases[a.i]);
    } else {
      assert Owned(b, s, name);
      var j :| 0 <= j < |s.phases| && Owns(s.phases[j]) && b.names[j] == name;
      assert Owns(s'.phases[j]);
    }
  }

  lemma FinishStep(b: Batch, s: State, s': State)
    requires b.Valid() && |s.phases| == |b.names| && Working(b, s) && Step(b, s, Finish, s')
    ensures Inv(b, s')
  {
    if Failed in s.phases {
      var i :| 0 <= i < |s.phases| && s.phases[i] == Failed;
      assert DownloadOk(b, s, i);
    } else {
      forall i | 0 <= i < |s.phases| ensures s.phases[i].Saved? && DownloadOk(b, s, i) {
        assert Settled(s.phases[i]) && s.phases[i] in s.phases;
      }
      forall i | 0 <= i < |b.names| ensures Good(b, b.remotes[i]) && b.names[i] in s.files {
        assert DownloadOk(b, s, i);
      }
      forall i, j | 0 <= i < j < |b.names| ensures b.names[i] != b.names[j] {
        assert Owns(s.phases[i]) && Owns(s.phases[j]);
      }
      forall name | name in s.files ensures name in b.names {
        assert Owned(b, s, name);
      }
    }
  }

  lemma InvStep(b: Batch, s: State, a: Action, s': State)
    requires b.Valid() && Inv(b, s) && Step(b, s, a, s')
    ensures Inv(b, s')
  {
    if s.result.Some? {
      assert false;
    } else if a.Finish? {
      FinishStep(b, s, s');
    } else {
      OwnersStayApart(b, s, a, s');
      forall j | 0 <= j < |s'.phases| ensures DownloadOk(b, s', j) {
        MoveKeeps(b, s, a, s', j);
      }
      forall name | name in s'.files ensures Owned(b, s', name) {
        FilesStayOwned(b, s, a, s', name);
      }
    }
  }

  lemma {:induction false} InvInRun(b: Batch, run: seq<State>, i: nat)
    requires b.Valid() && IsRun(b, run) && i < |run|
    ensures Inv(b, run[i])
  {
    if i > 0 {
      InvInRun(b, run, i - 1);
      assert NextAt(b, run, i - 1);
      var a :| Step(b, run[i - 1], a, run[i]);
      InvStep(b, run[i - 1], a, run[i]);
    }
  }

  // ---------------------------------------------------------------------
  // Main results
  // ---------------------------------------------------------------------

  lemma HeldExactly(b: Batch, s: State)
    requires b.Valid() && Complete(b, s)
    ensures forall name :: name in s.files <==> name in b.names
  {
    var held := set name | name in b.names;
    assert s.files.Keys == held;
  }

  /** In every interleaving, a batch that has ended succeeded exactly if its names are distinct and every download
      goes well. Then the directory holds exactly one file for each reference, and each file is the whole download,
      within the limit. Otherwise the directory is gone. */
  lemma BatchIsAllOrNothing(b: Batch, s: State)
    requires b.Valid() && Reachable(b, s) && s.result.Some?
    ensures s.result.value <==> AllGood(b)
    ensures AllGood(b) <==>
            && (forall i, j :: 0 <= i < j < |b.names| ==> b.names[i] != b.names[j])
            && (forall i :: 0 <= i < |b.names| ==>
                  var r := b.remotes[i];
                  r.answered && r.declared <= b.limit && !r.breaks && r.closes && |r.body| <= b.limit)
    ensures s.result.value ==>
              && s.dir && (forall name :: name in s.files <==> name in b.names)
              && forall i :: 0 <= i < |b.names| ==> b.names[i] in s.files && s.files[b.names[i]] == b.remotes[i].body
    ensures !s.result.value ==> !s.dir && s.files == map[]
  {
    var run :| IsRun(b, run) && run[|run| - 1] == s;
    InvInRun(b, run, |run| - 1);
    if s.result.value {
      HeldExactly(b, s);
    }
  }

  /** Until it has ended, no two downloads hold the same file, and a saved file is complete. */
  lemma DownloadsDoNotInterfere(b: Batch, s: State, i: nat, j: nat)
    requires b.Valid() && Reachable(b, s) && s.result.None? && i < j < |b.names| == |s.phases|
    ensures Owns(s.phases[i]) && Owns(s.phases[j]) ==> b.names[i] != b.names[j]
    ensures s.phases[i].Saved? ==> b.names[i] in s.files && s.files[b.names[i]] == b.remotes[i].body
  {
    var run :| IsRun(b, run) && run[|run| - 1] == s;
    InvInRun(b, run, |run| - 1);
    assert DownloadOk(b, s, i);
  }

  /** With the names of the naming loop: the batch succeeds exactly if no file clashes and every download goes well,
      and then every file lies directly inside the directory. */
  lemma NamedBatch(b: Batch, s: State, safe: Naming, refs: seq<Ref>)
    requires b.Valid() && PlainNaming(safe) && AllValid(refs, |refs|) && b.names == Names(Safes(safe, refs, |refs|))
    requires Reachable(b, s) && s.result.Some?
    ensures s.result.value <==>
            && (forall i :: 0 <= i < |refs| ==> !Clash(Safes(safe, refs, |refs|), i))
            && (forall i :: 0 <= i < |refs| ==> Good(b, b.remotes[i]))
    ensures forall name :: name in s.files ==> Plain(name)
  {
    BatchIsAllOrNothing(b, s);
    DistinctIffNoClash(Safes(safe, refs, |refs|));
    forall name | name in s.files ensures Plain(name) {
      var i :| 0 <= i < |refs| && b.names[i] == name;
      NamesArePlain(safe, refs, i);
    }
  }
}
