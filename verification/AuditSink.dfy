/** The producer of the audit log: traces that number their events, and one sink that chains them by hash into day
    files (internal/audit/audit.go), and the reader of those files (internal/audit/read.go). */
module AuditSink {
  import opened Wrappers
  import opened Strings
  import opened Days
  import opened AuditEvent
  import opened AuditVerify

  // ---------------------------------------------------------------------
  // The sink as a value
  // ---------------------------------------------------------------------

  /** The directory: the lines of each day's file. */
  type Files = map<Day, seq<string>>

  /** The open-file field: never set, usable, or left closed by a rotation that failed half-way. */
  datatype Handle = NoFile | Open | Closed

  datatype Sink = Sink(chainId: string, previousHash: string, currentDay: Option<Day>, handle: Handle, files: Files)

  /** While a file is open it is the current day's file. */
  predicate SinkOk(s: Sink) {
    s.handle.Open? ==> s.currentDay.Some? && s.currentDay.value in s.files
  }

  /** The instant retentionDays ago: files of earlier days, and of its own day unless it is midnight, are too old. */
  datatype Cutoff = Cutoff(day: Day, midnight: bool)

  /** How the environment answers one append. removeFails holds the files that cannot be removed. A failed write
      leaves no bytes behind. */
  datatype Io = Io(stampOk: bool, closeOk: bool, openOk: bool, chmodOk: bool, writeOk: bool, syncOk: bool,
                   cutoff: Cutoff, removeFails: set<Day>)

  /** Written: on disk and chained. Unsynced: on disk, but the sync failed and the chain head did not move.
      Dropped: nothing on disk. */
  datatype Outcome = Written | Unsynced | Dropped

  predicate TooOld(d: Day, cutoff: Cutoff) {
    DayLess(d, cutoff.day) || (d == cutoff.day && !cutoff.midnight)
  }

  predicate Removed(d: Day, current: Day, io: Io) {
    TooOld(d, io.cutoff) && d != current && d !in io.removeFails
  }

  function Retained(files: Files, current: Day, io: Io): Files {
    map d | d in files && !Removed(d, current, io) :: files[d]
  }

  /** Closing a file that is already closed is an error. */
  predicate CanClose(s: Sink, io: Io) {
    s.handle.NoFile? || (s.handle.Open? && io.closeOk)
  }

  function WithFile(files: Files, day: Day): Files {
    if day in files then files else files[day := []]
  }

  predicate RotateOk(s: Sink, day: Day, io: Io) {
    (s.currentDay == Some(day) && !s.handle.NoFile?) || (CanClose(s, io) && io.openOk && io.chmodOk)
  }

  function Rotated(s: Sink, day: Day, io: Io): Sink {
    if s.currentDay == Some(day) && !s.handle.NoFile? then s
    else
      var left := if s.handle.NoFile? then NoFile else Closed;
      if !CanClose(s, io) || !io.openOk then s.(handle := left)
      else if !io.chmodOk then s.(handle := left, files := WithFile(s.files, day))
      else s.(handle := Open, currentDay := Some(day), files := Retained(WithFile(s.files, day), day, io))
  }

  /** The event as it goes on disk, if it can be encoded. */
  function Chained(c: Codec, s: Sink, e: Event): Option<Event> {
    var linked := e.(chainId := s.chainId, previousHash := s.previousHash, hash := "");
    var expected := ExpectedHash(c, linked);
    if expected.None? then None
    else
      var stamped := linked.(hash := expected.value);
      if c.encode(stamped).None? then None else Some(stamped)
  }

  function OutcomeOf(c: Codec, s: Sink, e: Event, day: Day, io: Io): Outcome {
    if !io.stampOk || !RotateOk(s, day, io) then Dropped
    else
      var rotated := Rotated(s, day, io);
      if Chained(c, rotated, e).None? || !io.writeOk || !rotated.handle.Open? then Dropped
      else if io.syncOk then Written
      else Unsynced
  }

  function Appended(c: Codec, s: Sink, e: Event, day: Day, io: Io): Sink {
    if !io.stampOk then s
    else
      var rotated := Rotated(s, day, io);
      var outcome, event := OutcomeOf(c, s, e, day, io), Chained(c, rotated, e);
      if outcome.Dropped? || event.None? || day !in rotated.files then rotated
      else
        var line := c.encode(event.value);
        if line.None? then rotated
        else
          var grown := rotated.(files := rotated.files[day := rotated.files[day] + [line.value]]);
          if outcome.Written? then grown.(previousHash := event.value.hash) else grown
  }

  // ---------------------------------------------------------------------
  // The objects
  // ---------------------------------------------------------------------

  /** The mutex is held from the first to the last statement of Append and of Close. */
  class FileSink {
    const codec: Codec
    const chainId: string
    var previousHash: string
    var currentDay: Option<Day>
    var handle: Handle
    var files: Files

    function State(): Sink
      reads this
    {
      Sink(chainId, previousHash, currentDay, handle, files)
    }

    predicate Valid()
      reads this
    {
      SinkOk(State())
    }

    constructor (codec: Codec, chainId: string, files: Files)
      ensures Valid() && this.codec == codec && State() == Sink(chainId, "", None, NoFile, files)
    {
      this.codec, this.chainId, this.files := codec, chainId, files;
      previousHash, currentDay, handle := "", None, NoFile;
    }

    method Append(event: Event, day: Day, io: Io) returns (outcome: Outcome)
      requires Valid()
      modifies this
      ensures Valid()
      ensures State() == Appended(codec, old(State()), event, day, io)
      ensures outcome == OutcomeOf(codec, old(State()), event, day, io)
    {
      if !io.stampOk {
        return Dropped;
      }
      var ok := Rotate(day, io);
      if !ok {
        return Dropped;
      }
      var linked := event.(chainId := chainId, previousHash := previousHash, hash := "");
      var payload := codec.encode(linked);
      if payload.None? {
        return Dropped;
      }
      assert linked.(hash := "") == linked;
      var stamped := linked.(hash := codec.digest(Join(previousHash, payload.value)));
      var line := codec.encode(stamped);
      if line.None? {
        return Dropped;
      }
      if !io.writeOk || !handle.Open? {
        return Dropped;
      }
      files := files[day := files[day] + [line.value]];
      if !io.syncOk {
        return Unsynced;
      }
      previousHash := stamped.hash;
      return Written;
    }

    method Rotate(day: Day, io: Io) returns (ok: bool)
      requires Valid()
      modifies this
      ensures Valid()
      ensures State() == Rotated(old(State()), day, io)
      ensures ok == RotateOk(old(State()), day, io)
      ensures ok ==> currentDay == Some(day)
      ensures forall d :: d in files ==> files[d] == if d in old(files) then old(files)[d] else []
      ensures day in old(files) ==> day in files
      ensures forall d :: d in old(files) && DayLess(io.cutoff.day, d) ==> d in files
      ensures io.cutoff.midnight && io.cutoff.day in old(files) ==> io.cutoff.day in files
    {
      if currentDay == Some(day) && !handle.NoFile? {
        return true;
      }
      if !handle.NoFile? {
        var closes := handle.Open? && io.closeOk;
        handle := Closed;
        if !closes {
          return false;
        }
      }
      if !io.openOk {
        return false;
      }
      if day !in files {
        files := files[day := []];
      }
      if !io.chmodOk {
        return false;
      }
      handle := Open;
      currentDay := Some(day);
      Cleanup(day, io);
      return true;
    }

    /** The day files are visited in any order. */
    method Cleanup(day: Day, io: Io)
      requires currentDay == Some(day)
      modifies this`files
      ensures files == Retained(old(files), day, io)
      ensures forall d :: d in files ==> d in old(files) && files[d] == old(files)[d]
      ensures forall d :: d in old(files) ==>
                (d in files <==>
                   d == day || d in io.removeFails || DayLess(io.cutoff.day, d) ||
                   (d == io.cutoff.day && io.cutoff.midnight))
    {
      var pending := files.Keys;
      while pending != {}
        invariant pending <= old(files).Keys
        invariant files == map d | d in old(files) && (d in pending || !Removed(d, day, io)) :: old(files)[d]
      {
        var d :| d in pending;
        pending := pending - {d};
        if TooOld(d, io.cutoff) && Some(d) != currentDay {
          if d !in io.removeFails {
            files := files - {d};
          }
        }
      }
      forall d | d in old(files)
        ensures d in files <==>
                  d == day || d in io.removeFails || DayLess(io.cutoff.day, d) ||
                  (d == io.cutoff.day && io.cutoff.midnight)
      {
        RetainedExactly(old(files), day, io, d);
      }
    }

    method Close(io: Io) returns (ok: bool)
      requires Valid()
      modifies this`handle
      ensures Valid() && handle == NoFile
      ensures ok <==> CanClose(old(State()), io)
    {
      if handle.NoFile? {
        return true;
      }
      ok := handle.Open? && io.closeOk;
      handle := NoFile;
    }
  }

  /** One request's trace. A failed append still uses up its sequence number. */
  class Trace {
    const id: string
    const sink: FileSink?
    var sequence: nat

    constructor (id: string, sink: FileSink?)
      ensures this.id == id && this.sink == sink && sequence == 0
    {
      this.id, this.sink, this.sequence := id, sink, 0;
    }

    method Event(timestamp: string, stage: string, outcome: string, data: string, day: Day, io: Io) returns (r: Outcome)
      requires sink != null ==> sink.Valid()
      modifies this, sink
      ensures sink == null ==> sequence == old(sequence) && r == Written
      ensures sink != null ==>
                && sink.Valid()
                && sequence == Next64(old(sequence))
                && var e := NewEvent(id, sequence, timestamp, stage, outcome, data);
                   && sink.State() == Appended(sink.codec, old(sink.State()), e, day, io)
                   && r == OutcomeOf(sink.codec, old(sink.State()), e, day, io)
      ensures sink != null && sink.codec.Faithful() && !r.Dropped? ==>
                && day in sink.files
                && LastLineHolds(sink.codec, sink.files[day], id, sequence, Passed(timestamp, stage, outcome, data))
    {
      if sink == null {
        return Written;
      }
      ghost var c, before := sink.codec, sink.State();
      ghost var e := NewEvent(id, Next64(sequence), timestamp, stage, outcome, data);
      sequence := Next64(sequence);
      r := sink.Append(NewEvent(id, sequence, timestamp, stage, outcome, data), day, io);
      if c.Faithful() && !r.Dropped? {
        AppendRecords(c, before, e, day, io);
      }
    }
  }

  /** What a caller passes to Trace.Event. */
  datatype Passed = Passed(timestamp: string, stage: string, outcome: string, data: string)

  /** The event holds what its trace and the caller gave it. */
  ghost predicate HoldsCall(e: Event, id: string, sequence: nat, call: Passed) {
    && e.schema == "mygpt.audit.v1" && e.traceId == id && e.sequence == sequence
    && e.timestamp == call.timestamp && e.stage == call.stage && e.outcome == call.outcome && e.data == call.data
  }

  ghost predicate LastLineHolds(c: Codec, lines: seq<string>, id: string, sequence: nat, call: Passed) {
    && lines != [] && c.decode(lines[|lines| - 1]).Some?
    && HoldsCall(c.decode(lines[|lines| - 1]).value, id, sequence, call)
  }

  /** A recorded append adds exactly one line, at the end of the day's file. It reads back as the event that was passed
      in, with the sink's chain ID, linked to the chain's head and with the hash over that link, a NUL and the event's
      text without its hash; and the head moves to that hash exactly if the line was also synced. */
  lemma AppendRecords(c: Codec, s: Sink, e: Event, day: Day, io: Io)
    requires c.Faithful() && SinkOk(s) && !OutcomeOf(c, s, e, day, io).Dropped?
    ensures var s' := Appended(c, s, e, day, io);
            && day in s'.files && s'.files[day] != []
            && var n := |s'.files[day]| - 1;
               && s'.files[day][..n] == (if day in s.files then s.files[day] else [])
               && c.decode(s'.files[day][n]).Some?
               && var w := c.decode(s'.files[day][n]).value;
                  && w.schema == e.schema && w.traceId == e.traceId && w.sequence == e.sequence
                  && w.timestamp == e.timestamp && w.stage == e.stage && w.outcome == e.outcome && w.data == e.data
                  && w.chainId == s.chainId && w.previousHash == s.previousHash
                  && c.encode(w.(hash := "")).Some?
                  && w.hash == c.digest(s.previousHash + "\0" + c.encode(w.(hash := "")).value)
                  && s'.previousHash == if OutcomeOf(c, s, e, day, io) == Written then w.hash else s.previousHash
    ensures forall d :: d in Appended(c, s, e, day, io).files && d != day ==>
              d in s.files && Appended(c, s, e, day, io).files[d] == s.files[d]
  {
    var rotated := Rotated(s, day, io);
    var w := Chained(c, rotated, e).value;
    assert rotated.chainId == s.chainId && rotated.previousHash == s.previousHash;
    assert w.(hash := "") == e.(chainId := s.chainId, previousHash := s.previousHash, hash := "");
    assert c.decode(c.encode(w).value) == Some(w);
  }

  /** A dropped append adds no line. */
  lemma DropAddsNothing(c: Codec, s: Sink, e: Event, day: Day, io: Io)
    requires OutcomeOf(c, s, e, day, io).Dropped?
    ensures var s' := Appended(c, s, e, day, io);
            && s'.previousHash == s.previousHash
            && forall d :: d in s'.files ==> s'.files[d] == if d in s.files then s.files[d] else []
  {
  }

  /** An append is recorded exactly if its event can be encoded and everything it needs works: on an open file of the
      day only the write, otherwise also closing an old file, opening and protecting the new one. */
  lemma RecordedExactly(c: Codec, s: Sink, e: Event, day: Day, io: Io)
    ensures var link := e.(chainId := s.chainId, previousHash := s.previousHash, hash := "");
            var payload := c.encode(link);
            !OutcomeOf(c, s, e, day, io).Dropped? <==>
              && io.stampOk && io.writeOk && payload.Some?
              && c.encode(link.(hash := c.digest(s.previousHash + "\0" + payload.value))).Some?
              && !s.handle.Closed?
              && ((s.handle.Open? && s.currentDay == Some(day)) ||
                  ((s.handle.Open? ==> io.closeOk) && io.openOk && io.chmodOk))
    ensures OutcomeOf(c, s, e, day, io) == Written ==> io.syncOk
    ensures OutcomeOf(c, s, e, day, io) == Unsynced ==> !io.syncOk
  {
    var link := e.(chainId := s.chainId, previousHash := s.previousHash, hash := "");
    var rotated := Rotated(s, day, io);
    assert rotated.chainId == s.chainId && rotated.previousHash == s.previousHash;
    assert link.(hash := "") == link;
  }

  // ---------------------------------------------------------------------
  // Retention
  // ---------------------------------------------------------------------

  /** Retention keeps exactly the current day's file, the files that cannot be removed, those of days after the cut-off
      day, and that of the cut-off day itself if the cut-off is its midnight; all with their lines. */
  lemma RetainedExactly(files: Files, day: Day, io: Io, d: Day)
    requires d in files
    ensures d in Retained(files, day, io) <==>
            d == day || d in io.removeFails || DayLess(io.cutoff.day, d) || (d == io.cutoff.day && io.cutoff.midnight)
    ensures d in Retained(files, day, io) ==> Retained(files, day, io)[d] == files[d]
  {
  }

  /** A rotation to another day that succeeds leaves exactly these files, and a new one for the day. */
  lemma RotatedExactly(s: Sink, day: Day, io: Io, d: Day)
    requires RotateOk(s, day, io) && !(s.currentDay == Some(day) && !s.handle.NoFile?)
    ensures var files := Rotated(s, day, io).files;
            && (d in files <==>
                  d == day || (d in s.files && (d in io.removeFails || DayLess(io.cutoff.day, d) ||
                                                (d == io.cutoff.day && io.cutoff.midnight))))
            && (d in files ==> files[d] == if d in s.files then s.files[d] else [])
  {
    if d in WithFile(s.files, day) {
      RetainedExactly(WithFile(s.files, day), day, io, d);
    }
  }

  function NewEvent(id: string, sequence: nat, timestamp: string, stage: string, outcome: string, data: string): Event {
    Event(SCHEMA, timestamp, "", id, sequence, stage, outcome, data, "", "")
  }

  // ---------------------------------------------------------------------
  // A rotation that fails half-way
  // ---------------------------------------------------------------------

  /** Once the old day's file is closed and the new one could not be set up, every later append fails
      and changes nothing, however healthy the disk is by then. */
  lemma FailedRotationIsFinal(c: Codec, s: Sink, e: Event, day: Day, io: Io)
    requires s.handle.Closed?
    ensures OutcomeOf(c, s, e, day, io) == Dropped
    ensures Appended(c, s, e, day, io) == s
  {
  }

  /** Only Close ends this: it clears the field, and the next append opens the file anew. */
  lemma CloseEndsIt(c: Codec, s: Sink, e: Event, day: Day, io: Io)
    requires s.handle.NoFile?
    ensures OutcomeOf(c, s, e, day, io) == Written <==>
            io.stampOk && io.openOk && io.chmodOk && io.writeOk && io.syncOk && Chained(c, s, e).Some?
  {
    var rotated := Rotated(s, day, io);
    assert rotated.chainId == s.chainId && rotated.previousHash == s.previousHash;
    assert Chained(c, rotated, e) == Chained(c, s, e);
  }

  /** This happens exactly when the day changes under an open file and closing, opening or protecting fails. */
  lemma RotationFailsHalfWay(s: Sink, day: Day, io: Io)
    requires !s.handle.Closed?
    ensures Rotated(s, day, io).handle.Closed? <==>
            s.handle.Open? && s.currentDay != Some(day) && !(io.closeOk && io.openOk && io.chmodOk)
  {
  }

  // ---------------------------------------------------------------------
  // Reading
  // ---------------------------------------------------------------------

  /** The scanner's buffer must hold a whole line and its newline. */
  const MAX_LINE: nat := 2 * 1024 * 1024

  predicate Readable(c: Codec, line: string) {
    |line| < MAX_LINE && c.decode(line).Some?
  }

  ghost predicate AllReadable(c: Codec, lines: seq<string>) {
    forall i :: 0 <= i < |lines| ==> Readable(c, lines[i])
  }

  function DecodedLine(c: Codec, line: string): Event
    requires Readable(c, line)
  {
    c.decode(line).value
  }

  ghost function Decoded(c: Codec, lines: seq<string>): (events: seq<Event>)
    requires AllReadable(c, lines)
    ensures |events| == |lines|
    ensures forall i :: 0 <= i < |lines| ==> events[i] == DecodedLine(c, lines[i])
  {
    seq(|lines|, i requires 0 <= i < |lines| => DecodedLine(c, lines[i]))
  }

  /** The lines of the listed files, one file after the other. */
  function Concat(files: Files, names: seq<Day>): seq<string> {
    if names == [] then []
    else
      var n := |names| - 1;
      Concat(files, names[..n]) + if names[n] in files then files[names[n]] else []
  }

  lemma ReadableParts(c: Codec, a: seq<string>, b: seq<string>)
    ensures AllReadable(c, a + b) <==> AllReadable(c, a) && AllReadable(c, b)
  {
    if AllReadable(c, a + b) {
      forall i | 0 <= i < |a| ensures Readable(c, a[i]) {
        assert (a + b)[i] == a[i];
      }
      forall i | 0 <= i < |b| ensures Readable(c, b[i]) {
        assert (a + b)[|a| + i] == b[i];
      }
    }
  }

  lemma {:induction false} ConcatPrefixReadable(c: Codec, files: Files, names: seq<Day>, n: nat)
    requires n <= |names| && AllReadable(c, Concat(files, names))
    ensures AllReadable(c, Concat(files, names[..n]))
    decreases |names|
  {
    if n == |names| {
      assert names[..n] == names;
    } else {
      var m := |names| - 1;
      ReadableParts(c, Concat(files, names[..m]), if names[m] in files then files[names[m]] else []);
      ConcatPrefixReadable(c, files, names[..m], n);
      assert names[..m][..n] == names[..n];
    }
  }

  /** Reads one file's lines after what was read so far. */
  method ReadFile(c: Codec, lines: seq<string>) returns (events: Option<seq<Event>>)
    ensures events.Some? <==> AllReadable(c, lines)
    ensures events.Some? ==> events.value == Decoded(c, lines)
  {
    var read: seq<Event> := [];
    for line := 0 to |lines|
      invariant |read| == line
      invariant forall i :: 0 <= i < line ==> Readable(c, lines[i]) && read[i] == DecodedLine(c, lines[i])
    {
      if |lines[line]| >= MAX_LINE {
        return None;
      }
      var event := c.decode(lines[line]);
      if event.None? {
        return None;
      }
      read := read + [event.value];
    }
    return Some(read);
  }

  /** Reading succeeds exactly when every line of every listed file is readable, and gives all events in file order. */
  method Read(c: Codec, files: Files, names: seq<Day>) returns (events: Option<seq<Event>>)
    requires forall i :: 0 <= i < |names| ==> names[i] in files
    ensures events.Some? <==> AllReadable(c, Concat(files, names))
    ensures events.Some? ==> events.value == Decoded(c, Concat(files, names))
  {
    var read: seq<Event> := [];
    for index := 0 to |names|
      invariant AllReadable(c, Concat(files, names[..index]))
      invariant read == Decoded(c, Concat(files, names[..index]))
    {
      var lines := files[names[index]];
      ghost var before := Concat(files, names[..index]);
      assert names[..index + 1][..index] == names[..index];
      assert Concat(files, names[..index + 1]) == before + lines;
      ReadableParts(c, before, lines);
      var more := ReadFile(c, lines);
      if more.None? {
        if AllReadable(c, Concat(files, names)) {
          ConcatPrefixReadable(c, files, names, index + 1);
        }
        return None;
      }
      assert read + more.value == Decoded(c, before + lines);
      read := read + more.value;
    }
    assert names[..|names|] == names;
    return Some(read);
  }
}
