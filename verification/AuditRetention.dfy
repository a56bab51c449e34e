/** What the day files hold, and what retention leaves of it: exactly when the rest is still the end of the log, and
    exactly when it still verifies (rotate and cleanup in internal/audit/audit.go). */
module AuditRetention {
  import opened Strings
  import opened Days
  import opened AuditEvent
  import opened AuditVerify
  import opened AuditTamper
  import opened AuditSink

  ghost predicate SuffixOf<T>(a: seq<T>, b: seq<T>) {
    |a| <= |b| && a == b[|b| - |a|..]
  }

  /** All lines of a directory in the order of its file names. */
  ghost function Content(files: Files): seq<string> {
    Concat(files, Sorted(files.Keys))
  }

  lemma {:induction false} ConcatSplit(files: Files, a: seq<Day>, b: seq<Day>)
    ensures Concat(files, a + b) == Concat(files, a) + Concat(files, b)
  {
    if b == [] {
      assert a + b == a;
    } else {
      var n := |b| - 1;
      assert (a + b)[..|a + b| - 1] == a + b[..n];
      ConcatSplit(files, a, b[..n]);
    }
  }

  /** Concat looks only at the listed files. */
  lemma {:induction false} ConcatSame(files: Files, other: Files, names: seq<Day>)
    requires forall i :: 0 <= i < |names| ==>
               (names[i] in files <==> names[i] in other) && (names[i] in files ==> files[names[i]] == other[names[i]])
    ensures Concat(files, names) == Concat(other, names)
  {
    if names != [] {
      ConcatSame(files, other, names[..|names| - 1]);
    }
  }

  lemma {:induction false} SortedElements(days: set<Day>)
    ensures forall i :: 0 <= i < |Sorted(days)| ==> Sorted(days)[i] in days
  {
    if days != {} {
      LatestExists(days);
      var d :| Latest(days, d);
      SortedLatest(days, d);
      SortedElements(days - {d});
    }
  }

  ghost predicate NoneAfter(files: Files, day: Day) {
    forall d :: d in files ==> !DayLess(day, d)
  }

  lemma TotalOrder(a: Day, b: Day)
    ensures DayLess(a, b) || a == b || DayLess(b, a)
    ensures !(DayLess(a, b) && DayLess(b, a))
  {
  }

  lemma LastFile(files: Files, day: Day)
    requires day in files && NoneAfter(files, day)
    ensures Latest(files.Keys, day)
    ensures Content(files) == Concat(files, Sorted(files.Keys - {day})) + files[day]
  {
    forall x | x in files && x != day ensures DayLess(x, day) {
      TotalOrder(x, day);
    }
    SortedLatest(files.Keys, day);
    var names := Sorted(files.Keys);
    assert names[..|names| - 1] == Sorted(files.Keys - {day});
  }

  /** A line goes to the end of the day's file, which is the end of everything. */
  lemma ContentAppended(files: Files, day: Day, line: string)
    requires day in files && NoneAfter(files, day)
    ensures Content(files[day := files[day] + [line]]) == Content(files) + [line]
  {
    var more := files[day := files[day] + [line]];
    var earlier := files.Keys - {day};
    assert more.Keys == files.Keys;
    LastFile(files, day);
    LastFile(more, day);
    SameEarlier(files, more, day);
    AppendInner(Concat(files, Sorted(earlier)), files[day], line);
  }

  lemma SameEarlier(files: Files, more: Files, day: Day)
    requires more.Keys == files.Keys && forall d :: d in files && d != day ==> more[d] == files[d]
    ensures Concat(more, Sorted(files.Keys - {day})) == Concat(files, Sorted(files.Keys - {day}))
  {
    SortedElements(files.Keys - {day});
    ConcatSame(more, files, Sorted(files.Keys - {day}));
  }

  lemma AppendInner(a: seq<string>, b: seq<string>, line: string)
    ensures a + (b + [line]) == (a + b) + [line]
  {
  }

  lemma SuffixTransitive<T>(a: seq<T>, b: seq<T>, d: seq<T>)
    requires SuffixOf(a, b) && SuffixOf(b, d)
    ensures SuffixOf(a, d)
  {
  }

  lemma SuffixSnoc<T>(a: seq<T>, b: seq<T>, x: T)
    requires SuffixOf(a, b)
    ensures SuffixOf(a + [x], b + [x])
  {
  }

  // ---------------------------------------------------------------------
  // Removing files
  // ---------------------------------------------------------------------

  /** kept is what is left of files after some of them were removed. */
  ghost predicate LeftOf(kept: Files, files: Files) {
    forall d :: d in kept ==> d in files && kept[d] == files[d]
  }

  predicate Holds(files: Files, d: Day) {
    d in files && files[d] != []
  }

  predicate Gone(files: Files, kept: Files, d: Day) {
    Holds(files, d) && d !in kept
  }

  /** No file that was kept lies before one that was removed. Empty files do not count. */
  ghost predicate RemovedFromFront(files: Files, kept: Files) {
    forall x, y :: Holds(kept, x) && Gone(files, kept, y) ==> DayLess(y, x)
  }

  /** Files were kept on both sides of one that was removed. */
  ghost predicate Hole(files: Files, kept: Files) {
    exists x, y, z :: HoleAt(files, kept, x, y, z)
  }

  ghost predicate HoleAt(files: Files, kept: Files, x: Day, y: Day, z: Day) {
    Holds(kept, x) && Gone(files, kept, y) && Holds(kept, z) && DayLess(x, y) && DayLess(y, z)
  }

  ghost function Full(files: Files): set<Day> {
    set d | d in files && files[d] != []
  }

  ghost function GoneDays(files: Files, kept: Files): set<Day> {
    Full(files) - kept.Keys
  }

  /** Empty files do not show in the content. */
  lemma {:induction false} ConcatSkipsEmpty(files: Files, days: set<Day>, empty: set<Day>)
    requires forall d :: d in empty ==> !Holds(files, d)
    ensures Concat(files, Sorted(days + empty)) == Concat(files, Sorted(days))
    decreases |days + empty|
  {
    var all := days + empty;
    if all != {} {
      LatestExists(all);
      var d :| Latest(all, d);
      SortedLatest(all, d);
      assert |all - {d}| < |all|;
      if d in days {
        assert Latest(days, d);
        SortedLatest(days, d);
        assert (days - {d}) + (empty - {d}) == all - {d};
        ConcatSkipsEmpty(files, days - {d}, empty - {d});
      } else {
        assert days + (empty - {d}) == all - {d};
        ConcatSkipsEmpty(files, days, empty - {d});
      }
    } else {
      assert days == {};
    }
  }

  lemma ContentIsFull(files: Files)
    ensures Content(files) == Concat(files, Sorted(Full(files)))
  {
    var empty := files.Keys - Full(files);
    assert Full(files) + empty == files.Keys;
    ConcatSkipsEmpty(files, Full(files), empty);
  }

  /** The kept files hold what they held before. */
  lemma KeptContent(files: Files, kept: Files)
    requires LeftOf(kept, files)
    ensures Content(kept) == Concat(files, Sorted(Full(kept)))
  {
    ContentIsFull(kept);
    SortedElements(Full(kept));
    ConcatSame(files, kept, Sorted(Full(kept)));
  }

  lemma SplitContent(files: Files, early: set<Day>, late: set<Day>)
    requires forall x, y :: x in early && y in late ==> DayLess(x, y)
    ensures Concat(files, Sorted(early + late)) == Concat(files, Sorted(early)) + Concat(files, Sorted(late))
  {
    SortedSplit(early, late);
    ConcatSplit(files, Sorted(early), Sorted(late));
  }

  /** Creating the day's file changes no content. */
  lemma ContentWithFile(files: Files, day: Day)
    ensures Content(WithFile(files, day)) == Content(files)
  {
    var more := WithFile(files, day);
    assert Full(more) == Full(files);
    KeptContent(more, files);
    ContentIsFull(more);
  }

  lemma FrontRemoved(files: Files, kept: Files)
    requires LeftOf(kept, files) && RemovedFromFront(files, kept)
    ensures SuffixOf(Content(kept), Content(files))
  {
    var gone := GoneDays(files, kept);
    ContentIsFull(files);
    KeptContent(files, kept);
    assert gone + Full(kept) == Full(files);
    SplitContent(files, gone, Full(kept));
  }

  // ---------------------------------------------------------------------
  // Where a line is
  // ---------------------------------------------------------------------

  lemma {:induction false} LineIsIn(files: Files, days: set<Day>, d: Day, line: string)
    requires d in days && d in files && line in files[d]
    ensures line in Concat(files, Sorted(days))
    decreases |days|
  {
    LatestExists(days);
    var last :| Latest(days, last);
    SortedLatest(days, last);
    if d != last {
      LineIsIn(files, days - {last}, d, line);
    }
  }

  lemma {:induction false} LineIsFrom(files: Files, days: set<Day>, line: string) returns (d: Day)
    requires line in Concat(files, Sorted(days))
    ensures d in days && d in files && line in files[d]
    decreases |days|
  {
    LatestExists(days);
    var last :| Latest(days, last);
    SortedLatest(days, last);
    if last in files && line in files[last] {
      d := last;
    } else {
      d := LineIsFrom(files, days - {last}, line);
    }
  }

  /** A line of an earlier file stands before a line of a later file. */
  lemma LinesInOrder(files: Files, x: Day, a: string, y: Day, b: string) returns (i: nat, j: nat)
    requires x in files && a in files[x] && y in files && b in files[y] && DayLess(x, y)
    ensures i < j < |Content(files)| && Content(files)[i] == a && Content(files)[j] == b
  {
    var early := set d | d in files && !DayLess(x, d);
    var late := set d | d in files && DayLess(x, d);
    forall d, e | d in early && e in late ensures DayLess(d, e) {
      TotalOrder(x, d);
    }
    assert early + late == files.Keys;
    SplitContent(files, early, late);
    assert x in early by { TotalOrder(x, x); }
    LineIsIn(files, early, x, a);
    LineIsIn(files, late, y, b);
    var before, after := Concat(files, Sorted(early)), Concat(files, Sorted(late));
    i :| 0 <= i < |before| && before[i] == a;
    var k :| 0 <= k < |after| && after[k] == b;
    j := |before| + k;
  }

  ghost predicate AllDifferent(s: seq<string>) {
    forall i, j :: 0 <= i < j < |s| ==> s[i] != s[j]
  }

  /** A line of one file is in no other one. */
  lemma OneFileOnly(files: Files, x: Day, y: Day, line: string)
    requires AllDifferent(Content(files)) && x in files && y in files && line in files[x] && line in files[y]
    ensures x == y
  {
    if x != y {
      TotalOrder(x, y);
      if DayLess(x, y) {
        var i, j := LinesInOrder(files, x, line, y, line);
      } else {
        var i, j := LinesInOrder(files, y, line, x, line);
      }
    }
  }

  /** The kept lines are the piece of the content that starts at this position. */
  ghost predicate PieceAt(files: Files, kept: Files, at: nat) {
    at + |Content(kept)| <= |Content(files)| && Content(kept) == Content(files)[at..at + |Content(kept)|]
  }

  /** When the kept lines are a piece of the content and x was kept, a later y that was removed lies behind the
      piece. */
  lemma GoneIsBehind(files: Files, kept: Files, at: nat, x: Day, y: Day) returns (j: nat)
    requires LeftOf(kept, files) && AllDifferent(Content(files))
    requires PieceAt(files, kept, at)
    requires Holds(kept, x) && Gone(files, kept, y) && DayLess(x, y)
    ensures at + |Content(kept)| <= j < |Content(files)| && Content(files)[j] == files[y][0]
  {
    var all, part, a, b := Content(files), Content(kept), files[x][0], files[y][0];
    var i;
    i, j := LinesInOrder(files, x, a, y, b);
    LineIsIn(kept, kept.Keys, x, a);
    var k :| 0 <= k < |part| && part[k] == a;
    assert all[at + k] == a;
    assert i == at + k;
    if j < at + |part| {
      assert part[j - at] == b;
      var z := LineIsFrom(kept, kept.Keys, b);
      OneFileOnly(files, z, y, b);
    }
  }

  // ---------------------------------------------------------------------
  // Main results
  // ---------------------------------------------------------------------

  /** What is left is the end of the content exactly if no kept file lies before a removed one. */
  lemma SuffixIffFromFront(files: Files, kept: Files)
    requires LeftOf(kept, files) && AllDifferent(Content(files))
    ensures SuffixOf(Content(kept), Content(files)) <==> RemovedFromFront(files, kept)
  {
    if RemovedFromFront(files, kept) {
      FrontRemoved(files, kept);
    } else {
      var x, y :| Holds(kept, x) && Gone(files, kept, y) && !DayLess(y, x);
      TotalOrder(x, y);
      if SuffixOf(Content(kept), Content(files)) {
        var j := GoneIsBehind(files, kept, |Content(files)| - |Content(kept)|, x, y);
        assert false;
      }
    }
  }

  /** The removed days before everything that was kept. */
  ghost function EarlyGone(files: Files, kept: Files): set<Day> {
    set d | d in GoneDays(files, kept) && forall x :: x in Full(kept) ==> DayLess(d, x)
  }

  /** Without a hole what is left is one piece of the content. */
  lemma PieceWithoutHole(files: Files, kept: Files) returns (at: nat)
    requires LeftOf(kept, files) && !Hole(files, kept)
    ensures PieceAt(files, kept, at)
  {
    var gone, full := GoneDays(files, kept), Full(kept);
    var early := EarlyGone(files, kept);
    var late := gone - early;
    forall d, x | d in early + full && x in late ensures DayLess(d, x) {
      NotEarly(files, kept, x);
      if d in full {
        assert DayLess(d, x);
      } else {
        var y :| y in full;
        assert DayLess(d, y) && DayLess(y, x);
      }
    }
    assert (early + full) + late == Full(files);
    ContentIsFull(files);
    KeptContent(files, kept);
    SplitContent(files, early + full, late);
    SplitContent(files, early, full);
    at := |Concat(files, Sorted(early))|;
  }

  lemma NotEarly(files: Files, kept: Files, x: Day)
    requires LeftOf(kept, files) && !Hole(files, kept) && x in GoneDays(files, kept) && x !in EarlyGone(files, kept)
    ensures (exists d :: d in Full(kept)) && forall d :: d in Full(kept) ==> DayLess(d, x)
  {
    var z :| z in Full(kept) && !DayLess(x, z);
    TotalOrder(x, z);
    forall d | d in Full(kept) ensures DayLess(d, x) {
      TotalOrder(d, x);
      if DayLess(x, d) {
        assert HoleAt(files, kept, z, x, d);
      }
    }
  }

  lemma SamePlace(s: seq<string>, i: nat, j: nat)
    requires AllDifferent(s) && i < |s| && j < |s| && s[i] == s[j]
    ensures i == j
  {
  }

  lemma KeptInside(files: Files, kept: Files, at: nat, z: Day, k: nat)
    requires LeftOf(kept, files) && AllDifferent(Content(files)) && PieceAt(files, kept, at)
    requires Holds(kept, z) && k < |Content(files)| && Content(files)[k] == files[z][0]
    ensures at <= k < at + |Content(kept)|
  {
    LineIsIn(kept, kept.Keys, z, files[z][0]);
    var m :| 0 <= m < |Content(kept)| && Content(kept)[m] == files[z][0];
    SamePlace(Content(files), at + m, k);
  }

  lemma HoleIsNoPiece(files: Files, kept: Files, at: nat)
    requires LeftOf(kept, files) && AllDifferent(Content(files)) && Hole(files, kept)
    ensures !PieceAt(files, kept, at)
  {
    if PieceAt(files, kept, at) {
      var x, y, z :| HoleAt(files, kept, x, y, z);
      var j := GoneIsBehind(files, kept, at, x, y);
      var i, k := LinesInOrder(files, y, files[y][0], z, files[z][0]);
      KeptInside(files, kept, at, z, k);
      SamePlace(Content(files), i, j);
    }
  }

  lemma LinesDiffer(c: Codec, lines: seq<string>)
    requires c.Faithful() && c.CollisionFree() && AllReadable(c, lines) && Genuine(c, Decoded(c, lines))
    ensures AllDifferent(lines)
  {
    forall i, j | 0 <= i < j < |lines| ensures lines[i] != lines[j] {
      HashesDistinct(c, Decoded(c, lines), i, j);
    }
  }

  lemma LeftIsReadable(c: Codec, files: Files, kept: Files)
    requires LeftOf(kept, files) && AllReadable(c, Content(files))
    ensures AllReadable(c, Content(kept))
    ensures forall line :: line in Content(kept) ==> line in Content(files)
  {
    forall line | line in Content(kept) ensures line in Content(files) {
      var d := LineIsFrom(kept, kept.Keys, line);
      LineIsIn(files, files.Keys, d, line);
    }
    forall i | 0 <= i < |Content(kept)| ensures Readable(c, Content(kept)[i]) {
      assert Content(kept)[i] in Content(files);
    }
  }

  /** The directory holds one genuine chain, and it verifies. */
  ghost predicate GenuineContent(c: Codec, files: Files) {
    && AllReadable(c, Content(files))
    && Genuine(c, Decoded(c, Content(files))) && Accepts(c, Decoded(c, Content(files)))
  }

  /** Of a directory with one genuine chain that verifies, what is left verifies exactly if there is no hole in it. */
  lemma VerifiesIffNoHole(c: Codec, files: Files, kept: Files)
    requires c.Faithful() && c.CollisionFree() && LeftOf(kept, files) && GenuineContent(c, files)
    ensures AllReadable(c, Content(kept))
    ensures Accepts(c, Decoded(c, Content(kept))) <==> !Hole(files, kept)
  {
    LeftIsReadable(c, files, kept);
    var lines, chain := Content(kept), Decoded(c, Content(files));
    var log := Decoded(c, lines);
    if !Hole(files, kept) {
      var at := PieceWithoutHole(files, kept);
      assert log == chain[at..at + |lines|];
      SliceAccepted(c, chain, at, at + |lines|);
    } else if Accepts(c, log) {
      PieceWhenAccepted(c, files, kept);
    }
  }

  lemma KeptEvents(c: Codec, files: Files, kept: Files)
    requires LeftOf(kept, files) && AllReadable(c, Content(files)) && AllReadable(c, Content(kept))
    ensures forall e :: e in Decoded(c, Content(kept)) ==> e in Decoded(c, Content(files))
  {
    LeftIsReadable(c, files, kept);
    var all, lines := Content(files), Content(kept);
    forall e | e in Decoded(c, lines) ensures e in Decoded(c, all) {
      var i :| 0 <= i < |lines| && Decoded(c, lines)[i] == e;
      assert lines[i] in all;
      var p :| 0 <= p < |all| && all[p] == lines[i];
      assert Decoded(c, all)[p] == e;
    }
  }

  lemma LinePlace(c: Codec, files: Files, kept: Files, at: nat, i: nat)
    requires c.Faithful() && c.CollisionFree() && LeftOf(kept, files) && GenuineContent(c, files)
    requires AllReadable(c, Content(kept)) && i < |Content(kept)| && at + i < |Content(files)|
    requires Decoded(c, Content(kept))[i] == Decoded(c, Content(files))[at + i]
    ensures Content(kept)[i] == Content(files)[at + i]
  {
    LeftIsReadable(c, files, kept);
    var all, line := Content(files), Content(kept)[i];
    assert line in all;
    var p :| 0 <= p < |all| && all[p] == line;
    SameEventSamePlace(c, Decoded(c, all), p, at + i);
  }

  /** When the kept events are a run of the chain, the kept lines are a piece of the content. */
  lemma RunIsPiece(c: Codec, files: Files, kept: Files, at: nat)
    requires c.Faithful() && c.CollisionFree() && LeftOf(kept, files) && GenuineContent(c, files)
    requires AllReadable(c, Content(kept))
    requires ContiguousRun(Decoded(c, Content(kept)), Decoded(c, Content(files)), at)
    ensures PieceAt(files, kept, at)
  {
    var chain, log := Decoded(c, Content(files)), Decoded(c, Content(kept));
    forall i | 0 <= i < |Content(kept)| ensures Content(kept)[i] == Content(files)[at + i] {
      assert log[i] == chain[at..at + |log|][i] == chain[at + i];
      LinePlace(c, files, kept, at, i);
    }
  }

  lemma PieceWhenAccepted(c: Codec, files: Files, kept: Files)
    requires c.Faithful() && c.CollisionFree() && LeftOf(kept, files) && GenuineContent(c, files)
    requires AllReadable(c, Content(kept)) && Accepts(c, Decoded(c, Content(kept)))
    ensures !Hole(files, kept)
  {
    var chain, log := Decoded(c, Content(files)), Decoded(c, Content(kept));
    LinesDiffer(c, Content(files));
    if Hole(files, kept) {
      var x, y, z :| HoleAt(files, kept, x, y, z);
      LineIsIn(kept, kept.Keys, x, kept[x][0]);
      KeptEvents(c, files, kept);
      RearrangementDetected(c, chain, log);
      var at: nat :| ContiguousRun(log, chain, at);
      RunIsPiece(c, files, kept, at);
      HoleIsNoPiece(files, kept, at);
    }
  }

  lemma SameEventSamePlace(c: Codec, chain: seq<Event>, i: nat, j: nat)
    requires c.Faithful() && c.CollisionFree() && Genuine(c, chain)
    requires i < |chain| && j < |chain| && chain[i] == chain[j]
    ensures i == j
  {
    if i < j {
      HashesDistinct(c, chain, i, j);
    } else if j < i {
      HashesDistinct(c, chain, j, i);
    }
  }

  // ---------------------------------------------------------------------
  // Many chains
  // ---------------------------------------------------------------------

  predicate LineOfChain(c: Codec, id: string, line: string) {
    c.decode(line).Some? && c.decode(line).value.chainId == id
  }

  /** The lines of one chain. */
  function LinesOf(c: Codec, id: string, lines: seq<string>): seq<string> {
    if lines == [] then []
    else
      var n := |lines| - 1;
      LinesOf(c, id, lines[..n]) + if LineOfChain(c, id, lines[n]) then [lines[n]] else []
  }

  /** The files with the lines of one chain only. */
  function FilesOf(c: Codec, id: string, files: Files): Files {
    map d | d in files :: LinesOf(c, id, files[d])
  }

  lemma {:induction false} LinesOfAppend(c: Codec, id: string, a: seq<string>, b: seq<string>)
    ensures LinesOf(c, id, a + b) == LinesOf(c, id, a) + LinesOf(c, id, b)
  {
    if b == [] {
      assert a + b == a;
    } else {
      var n := |b| - 1;
      assert (a + b)[..|a + b| - 1] == a + b[..n];
      LinesOfAppend(c, id, a, b[..n]);
    }
  }

  lemma {:induction false} ConcatOfChain(c: Codec, id: string, files: Files, names: seq<Day>)
    ensures Concat(FilesOf(c, id, files), names) == LinesOf(c, id, Concat(files, names))
  {
    if names != [] {
      var n := |names| - 1;
      ConcatOfChain(c, id, files, names[..n]);
      LinesOfAppend(c, id, Concat(files, names[..n]), if names[n] in files then files[names[n]] else []);
    }
  }

  lemma ContentOfChain(c: Codec, id: string, files: Files)
    ensures Content(FilesOf(c, id, files)) == LinesOf(c, id, Content(files))
  {
    assert FilesOf(c, id, files).Keys == files.Keys;
    ConcatOfChain(c, id, files, Sorted(files.Keys));
  }

  /** Decoding the lines of a chain gives the events of the chain. */
  lemma {:induction false} DecodedOfChain(c: Codec, id: string, lines: seq<string>)
    requires AllReadable(c, lines)
    ensures AllReadable(c, LinesOf(c, id, lines))
    ensures Decoded(c, LinesOf(c, id, lines)) == Project(Decoded(c, lines), id)
  {
    if lines != [] {
      var n := |lines| - 1;
      var front, last := lines[..n], lines[n];
      assert AllReadable(c, front) && Readable(c, last);
      DecodedOfChain(c, id, front);
      assert Decoded(c, lines) == Decoded(c, front) + [DecodedLine(c, last)];
      ProjectSnoc(Decoded(c, front), DecodedLine(c, last), id);
    }
  }

  lemma EventsOfChain(c: Codec, id: string, files: Files)
    requires AllReadable(c, Content(files))
    ensures AllReadable(c, Content(FilesOf(c, id, files)))
    ensures Decoded(c, Content(FilesOf(c, id, files))) == Project(Decoded(c, Content(files)), id)
  {
    ContentOfChain(c, id, files);
    DecodedOfChain(c, id, Content(files));
  }

  /** The directory holds genuine chains of several processes, and it verifies. */
  ghost predicate GenuineChains(c: Codec, files: Files) {
    && AllReadable(c, Content(files))
    && ChainsNulFree(Decoded(c, Content(files))) && Accepts(c, Decoded(c, Content(files)))
    && forall id :: Genuine(c, Project(Decoded(c, Content(files)), id))
  }

  lemma ChainVerifiesIffNoHole(c: Codec, files: Files, kept: Files, id: string)
    requires c.Faithful() && c.CollisionFree() && LeftOf(kept, files) && GenuineChains(c, files)
    requires AllReadable(c, Content(kept))
    ensures Accepts(c, Project(Decoded(c, Content(kept)), id)) <==> !Hole(FilesOf(c, id, files), FilesOf(c, id, kept))
  {
    EventsOfChain(c, id, files);
    EventsOfChain(c, id, kept);
    var log := Decoded(c, Content(files));
    EachChainAccepted(c, log, |log|, id);
    VerifiesIffNoHole(c, FilesOf(c, id, files), FilesOf(c, id, kept));
  }

  lemma KeptNulFree(c: Codec, files: Files, kept: Files)
    requires LeftOf(kept, files) && AllReadable(c, Content(files)) && AllReadable(c, Content(kept))
    requires ChainsNulFree(Decoded(c, Content(files)))
    ensures ChainsNulFree(Decoded(c, Content(kept)))
  {
    KeptEvents(c, files, kept);
    var log := Decoded(c, Content(kept));
    forall i | 0 <= i < |log| ensures NulFree(log[i].chainId) {
      assert log[i] in log;
    }
  }

  /** Of a directory with genuine chains of several processes that verifies, what is left verifies exactly if no chain
      has a hole: no file with lines of the chain was removed between two kept files with lines of it. */
  lemma VerifiesIffNoChainHasHole(c: Codec, files: Files, kept: Files)
    requires c.Faithful() && c.CollisionFree() && LeftOf(kept, files) && GenuineChains(c, files)
    ensures AllReadable(c, Content(kept))
    ensures Accepts(c, Decoded(c, Content(kept))) <==>
            forall id :: !Hole(FilesOf(c, id, files), FilesOf(c, id, kept))
  {
    LeftIsReadable(c, files, kept);
    KeptNulFree(c, files, kept);
    var log := Decoded(c, Content(kept));
    AcceptsIffEachChain(c, log);
    if Accepts(c, log) {
      forall id ensures !Hole(FilesOf(c, id, files), FilesOf(c, id, kept)) {
        EachChainAccepted(c, log, |log|, id);
        ChainVerifiesIffNoHole(c, files, kept, id);
      }
    } else {
      var id :| id in ChainsTo(log, |log|) && !Accepts(c, Project(log, id));
      ChainVerifiesIffNoHole(c, files, kept, id);
    }
  }

  lemma RemovedAreEarlier(files: Files, day: Day, io: Io, x: Day, y: Day)
    requires io.removeFails == {} && NoneAfter(files, day)
    requires x in files && y in files && Removed(x, day, io) && !Removed(y, day, io)
    ensures DayLess(x, y)
  {
    TotalOrder(x, day);
    TotalOrder(y, io.cutoff.day);
  }

  /** When every removal succeeds, retention removes files from the front. */
  lemma RetentionFromFront(files: Files, day: Day, io: Io)
    requires io.removeFails == {} && NoneAfter(files, day)
    ensures RemovedFromFront(files, Retained(files, day, io))
  {
    var kept := Retained(files, day, io);
    forall x, y | Holds(kept, x) && Gone(files, kept, y) ensures DayLess(y, x) {
      RemovedAreEarlier(files, day, io, y, x);
    }
  }

  /** A removal that fails is skipped, so of the files of three days only the middle one can be removed. With a
      retention of one day this happens at a rotation on the day after y. */
  lemma FailedRemovalLeavesHole(files: Files, io: Io, x: Day, y: Day, z: Day)
    requires (forall d :: d in files <==> d == x || d == y || d == z) && DayLess(x, y) && DayLess(y, z)
    requires Holds(files, x) && Holds(files, y) && Holds(files, z)
    requires (forall d :: d in io.removeFails <==> d == x) && io.cutoff == Cutoff(y, false)
    ensures Retained(files, z, io) == map[x := files[x], z := files[z]]
    ensures Hole(files, Retained(files, z, io))
  {
    TotalOrder(x, y);
    TotalOrder(y, z);
    assert HoleAt(files, Retained(files, z, io), x, y, z);
  }

  /** Then what is left of a genuine chain over the three days does not verify any more. */
  lemma FailedRemovalIsRejected(c: Codec, files: Files, io: Io, x: Day, y: Day, z: Day)
    requires c.Faithful() && c.CollisionFree() && GenuineContent(c, files)
    requires (forall d :: d in files <==> d == x || d == y || d == z) && DayLess(x, y) && DayLess(y, z)
    requires Holds(files, x) && Holds(files, y) && Holds(files, z)
    requires (forall d :: d in io.removeFails <==> d == x) && io.cutoff == Cutoff(y, false)
    ensures var left := Content(Retained(files, z, io)); AllReadable(c, left) && !Accepts(c, Decoded(c, left))
  {
    FailedRemovalLeavesHole(files, io, x, y, z);
    VerifiesIffNoHole(c, files, Retained(files, z, io));
  }
}
