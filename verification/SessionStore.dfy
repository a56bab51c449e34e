/** Persistence of the session directories: the whole map is rewritten to a temporary file that is then renamed
    over the real one (internal/agent/session.go). */
module SessionStore {
  import opened Wrappers

  type Dirs = map<string, string>

  /** The JSON text of a directory map. */
  datatype Codec = Codec(encode: Dirs -> string, decode: string -> Option<Dirs>) {
    ghost predicate RoundTrips() {
      forall m :: decode(encode(m)) == Some(m)
    }
  }

  /** sessions.json and sessions.json.tmp. */
  datatype Disk = Disk(main: Option<string>, temp: Option<string>)

  /** The directory saved under a session key; an empty one counts as unset. */
  function Saved(dirs: Dirs, key: string): Option<string> {
    if key in dirs && dirs[key] != "" then Some(dirs[key]) else None
  }

  function WithDir(dirs: Dirs, key: string, dir: string): Dirs {
    if key == "" || dir == "" then dirs else dirs[key := dir]
  }

  /** What startup reads: no file is an empty map, an unreadable file is an error. */
  function Load(codec: Codec, disk: Disk): Option<Dirs> {
    if disk.main.None? then Some(map[]) else codec.decode(disk.main.value)
  }

  // ---------------------------------------------------------------------
  // One call of set, with the point where it fails
  // ---------------------------------------------------------------------

  datatype Fault = NoFault | WriteStops(written: nat) | RenameFails | ChmodFails

  datatype Memory = Memory(dirs: Dirs, disk: Disk)

  function DiskAfter(data: string, disk: Disk, fault: Fault): Disk {
    match fault
    case WriteStops(n) => disk.(temp := Some(if n <= |data| then data[..n] else data))
    case RenameFails => disk.(temp := Some(data))
    case _ => Disk(Some(data), None)
  }

  function AfterSet(codec: Codec, m: Memory, key: string, dir: string, fault: Fault): Memory {
    if key == "" || dir == "" then m
    else
      var dirs := WithDir(m.dirs, key, dir);
      Memory(dirs, DiskAfter(codec.encode(dirs), m.disk, fault))
  }

  class Store {
    const codec: Codec
    const fallback: string
    var dirs: Dirs
    var disk: Disk

    function State(): Memory
      reads this
    {
      Memory(dirs, disk)
    }

    constructor (codec: Codec, fallback: string, loaded: Dirs, disk: Disk)
      requires Load(codec, disk) == Some(loaded)
      ensures this.codec == codec && this.fallback == fallback && State() == Memory(loaded, disk)
    {
      this.codec, this.fallback, this.dirs, this.disk := codec, fallback, loaded, disk;
    }

    method Get(key: string, isDir: string -> bool) returns (dir: string)
      ensures dir == if key != "" && key in dirs && dirs[key] != "" && isDir(dirs[key]) then dirs[key] else fallback
    {
      if key == "" {
        return fallback;
      }
      if key in dirs && dirs[key] != "" {
        if isDir(dirs[key]) {
          return dirs[key];
        }
      }
      return fallback;
    }

    method Set(key: string, dir: string, fault: Fault) returns (ok: bool)
      modifies this
      ensures State() == AfterSet(codec, old(State()), key, dir, fault)
      ensures ok <==> key == "" || dir == "" || fault == NoFault
      ensures dirs == if key == "" || dir == "" then old(dirs) else old(dirs)[key := dir]
      ensures codec.RoundTrips() && ok && key != "" && dir != "" ==> Load(codec, disk) == Some(old(dirs)[key := dir])
    {
      if key == "" || dir == "" {
        return true;
      }
      dirs := dirs[key := dir];
      var data := codec.encode(dirs);
      if fault.WriteStops? {
        disk := disk.(temp := Some(if fault.written <= |data| then data[..fault.written] else data));
        return false;
      }
      disk := disk.(temp := Some(data));
      if fault.RenameFails? {
        return false;
      }
      disk := Disk(disk.temp, None);
      return fault.NoFault?;
    }
  }

  // ---------------------------------------------------------------------
  // Every point of every sequence of updates, with crashes anywhere
  // ---------------------------------------------------------------------

  /** Writing(data, n): the first n bytes are in the temporary file; Renamed: only the final chmod is missing. */
  datatype Stage = Idle | Writing(data: string, written: nat) | Renamed

  /** renamed is the list of maps whose rename completed; it is bookkeeping of the model. */
  datatype Process = Process(dirs: Dirs, disk: Disk, stage: Stage, renamed: seq<Dirs>, failed: bool)

  datatype Act =
    | Begin(key: string, dir: string)
    | Write(upTo: nat)
    | Rename
    | Finish
    | GiveUp
    | Crash

  ghost predicate Step(codec: Codec, p: Process, act: Act, p': Process) {
    match act
    case Begin(key, dir) =>
      && p.stage.Idle? && key != "" && dir != ""
      && var dirs := p.dirs[key := dir];
         p' == p.(dirs := dirs, stage := Writing(codec.encode(dirs), 0), disk := p.disk.(temp := Some("")))
    case Write(n) =>
      && p.stage.Writing? && p.stage.written <= n <= |p.stage.data|
      && p' == p.(stage := p.stage.(written := n), disk := p.disk.(temp := Some(p.stage.data[..n])))
    case Rename =>
      && p.stage.Writing? && p.stage.written == |p.stage.data|
      && p' == p.(stage := Renamed, disk := Disk(p.disk.temp, None), renamed := p.renamed + [p.dirs], failed := false)
    case Finish => p.stage.Renamed? && p' == p.(stage := Idle)
    case GiveUp => !p.stage.Idle? && p' == p.(stage := Idle, failed := p.failed || !p.stage.Renamed?)
    case Crash =>
      && Load(codec, p.disk).Some?
      && p' == Process(Load(codec, p.disk).value, p.disk, Idle, p.renamed, false)
  }

  ghost predicate Next(codec: Codec, p: Process, p': Process) {
    exists act :: Step(codec, p, act, p')
  }

  ghost predicate StepAt(codec: Codec, run: seq<Process>, i: nat)
    requires i + 1 < |run|
  {
    Next(codec, run[i], run[i + 1])
  }

  ghost predicate IsRun(codec: Codec, run: seq<Process>) {
    && |run| > 0 && run[0] == Process(map[], Disk(None, None), Idle, [], false)
    && forall i :: 0 <= i < |run| - 1 ==> StepAt(codec, run, i)
  }

  function LastRenamed(renamed: seq<Dirs>): Dirs {
    if renamed == [] then map[] else renamed[|renamed| - 1]
  }

  ghost predicate DiskInv(codec: Codec, p: Process) {
    && Load(codec, p.disk) == Some(LastRenamed(p.renamed))
    && (p.stage.Writing? ==>
          && p.stage.data == codec.encode(p.dirs) && p.stage.written <= |p.stage.data|
          && p.disk.temp == Some(p.stage.data[..p.stage.written]))
    && (p.stage.Renamed? ==> LastRenamed(p.renamed) == p.dirs)
    && (p.stage.Idle? && !p.failed ==> LastRenamed(p.renamed) == p.dirs)
  }

  lemma DiskStep(codec: Codec, p: Process, act: Act, p': Process)
    requires codec.RoundTrips() && DiskInv(codec, p) && Step(codec, p, act, p')
    ensures DiskInv(codec, p')
  {
    if act.Rename? {
      assert p.stage.data[..p.stage.written] == p.stage.data;
    }
  }

  lemma {:induction false} DiskInRun(codec: Codec, run: seq<Process>, i: nat)
    requires codec.RoundTrips() && IsRun(codec, run) && i < |run|
    ensures DiskInv(codec, run[i])
  {
    if i > 0 {
      DiskInRun(codec, run, i - 1);
      assert StepAt(codec, run, i - 1);
      var act :| Step(codec, run[i - 1], act, run[i]);
      DiskStep(codec, run[i - 1], act, run[i]);
    }
  }

  /** Whether the call gets as far as its rename. */
  predicate Renames(fault: Fault) {
    fault == NoFault || fault == ChmodFails
  }

  /** After a call whose rename happened, a restart finds the new map; after any other call, what it found before. */
  lemma SetReachesDisk(codec: Codec, m: Memory, key: string, dir: string, fault: Fault)
    requires codec.RoundTrips() && key != "" && dir != ""
    ensures var after := AfterSet(codec, m, key, dir, fault);
            && after.dirs == m.dirs[key := dir]
            && (if fault == NoFault || fault == ChmodFails then Load(codec, after.disk) == Some(m.dirs[key := dir])
                else after.disk.main == m.disk.main && Load(codec, after.disk) == Load(codec, m.disk))
  {
  }

  /** A call of set is one of the step sequences, whatever fails in it: with a completed rename, and not counted as
      failed, exactly if it gets that far. */
  lemma SetIsSteps(codec: Codec, p: Process, key: string, dir: string, fault: Fault) returns (path: seq<Process>)
    requires p.stage.Idle? && key != "" && dir != ""
    ensures |path| > 0 && path[0] == p && forall i :: 0 <= i < |path| - 1 ==> StepAt(codec, path, i)
    ensures var last := path[|path| - 1];
            && last.stage.Idle?
            && Memory(last.dirs, last.disk) == AfterSet(codec, Memory(p.dirs, p.disk), key, dir, fault)
            && last.renamed == (if Renames(fault) then p.renamed + [p.dirs[key := dir]] else p.renamed)
            && (last.failed <==> !Renames(fault))
  {
    var dirs := p.dirs[key := dir];
    var data := codec.encode(dirs);
    var n := if fault.WriteStops? && fault.written <= |data| then fault.written else |data|;
    var begun := p.(dirs := dirs, stage := Writing(data, 0), disk := p.disk.(temp := Some("")));
    var written := begun.(stage := Writing(data, n), disk := p.disk.(temp := Some(data[..n])));
    assert data[..|data|] == data;
    assert Step(codec, p, Begin(key, dir), begun) && Step(codec, begun, Write(n), written);
    if fault.WriteStops? || fault.RenameFails? {
      var gone := written.(stage := Idle, failed := true);
      assert Step(codec, written, GiveUp, gone);
      path := [p, begun, written, gone];
    } else {
      var renamed := written.(stage := Renamed, disk := Disk(Some(data), None), renamed := p.renamed + [dirs],
                              failed := false);
      assert Step(codec, written, Rename, renamed);
      var done := renamed.(stage := Idle);
      assert Step(codec, renamed, Finish, done);
      path := [p, begun, written, renamed, done];
    }
  }

  /** Wherever the process dies, startup succeeds and finds the map of the last completed rename. */
  lemma CrashLosesOnlyUnrenamed(codec: Codec, run: seq<Process>, i: nat)
    requires codec.RoundTrips() && IsRun(codec, run) && i < |run|
    ensures Load(codec, run[i].disk) == Some(LastRenamed(run[i].renamed))
  {
    DiskInRun(codec, run, i);
  }

  /** Between updates, unless the latest one failed, that map is the one in memory. */
  lemma NothingUnsavedWhenIdle(codec: Codec, run: seq<Process>, i: nat)
    requires codec.RoundTrips() && IsRun(codec, run) && i < |run|
    requires run[i].stage.Idle? && !run[i].failed
    ensures Load(codec, run[i].disk) == Some(run[i].dirs)
  {
    DiskInRun(codec, run, i);
  }
}
