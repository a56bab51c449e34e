/** UTC days, the names of their log files, and the order in which sorted names list them
    (rotate, cleanup and Files in internal/audit/audit.go). */
module Days {
  datatype Day = Day(year: nat, month: nat, day: nat)

  /** A day whose name has four, two and two digits. */
  predicate Named(d: Day) {
    d.year < 10_000 && d.month < 100 && d.day < 100
  }

  predicate DayLess(a: Day, b: Day) {
    a.year < b.year || (a.year == b.year && (a.month < b.month || (a.month == b.month && a.day < b.day)))
  }

  function Power10(width: nat): nat {
    if width == 0 then 1 else 10 * Power10(width - 1)
  }

  /** The last width decimal digits of n, padded with zeros. */
  function Pad(n: nat, width: nat): (s: string)
    ensures |s| == width
  {
    if width == 0 then "" else Pad(n / 10, width - 1) + [('0' as int + n % 10) as char]
  }

  function FileName(d: Day): string {
    "audit-" + (Pad(d.year, 4) + ("-" + (Pad(d.month, 2) + ("-" + (Pad(d.day, 2) + ".jsonl")))))
  }

  /** The order of sort.Strings. */
  predicate TextLess(a: string, b: string) {
    if b == "" then false
    else if a == "" then true
    else a[0] < b[0] || (a[0] == b[0] && TextLess(a[1..], b[1..]))
  }

  lemma {:induction false} TextLessParts(a: string, x: string, b: string, y: string)
    requires |a| == |b|
    ensures TextLess(a + x, b + y) <==> TextLess(a, b) || (a == b && TextLess(x, y))
  {
    if a == "" {
      assert a + x == x && b + y == y;
    } else {
      assert (a + x)[1..] == a[1..] + x && (b + y)[1..] == b[1..] + y;
      TextLessParts(a[1..], x, b[1..], y);
      assert a == [a[0]] + a[1..] && b == [b[0]] + b[1..];
    }
  }

  lemma {:induction false} PadOrder(n: nat, m: nat, width: nat)
    requires n < Power10(width) && m < Power10(width)
    ensures TextLess(Pad(n, width), Pad(m, width)) <==> n < m
    ensures Pad(n, width) == Pad(m, width) <==> n == m
  {
    if width > 0 {
      PadOrder(n / 10, m / 10, width - 1);
      var a, b := Pad(n / 10, width - 1), Pad(m / 10, width - 1);
      var x, y := [('0' as int + n % 10) as char], [('0' as int + m % 10) as char];
      TextLessParts(a, x, b, y);
      assert TextLess(x, y) <==> n % 10 < m % 10;
      assert (a + x)[..width - 1] == a && (b + y)[..width - 1] == b;
      assert (a + x)[width - 1] == x[0] && (b + y)[width - 1] == y[0];
    }
  }

  lemma SkipPart(p: string, x: string, y: string)
    ensures TextLess(p + x, p + y) <==> TextLess(x, y)
  {
    NotLessSelf(p);
    TextLessParts(p, x, p, y);
  }

  lemma {:induction false} NotLessSelf(p: string)
    ensures !TextLess(p, p)
  {
    if p != "" {
      NotLessSelf(p[1..]);
    }
  }

  /** Zero padding makes file names sort by date. */
  lemma NamesSortByDate(a: Day, b: Day)
    requires Named(a) && Named(b)
    ensures TextLess(FileName(a), FileName(b)) <==> DayLess(a, b)
  {
    var tail := ".jsonl";
    var a3, b3 := Pad(a.day, 2) + tail, Pad(b.day, 2) + tail;
    var a2, b2 := Pad(a.month, 2) + ("-" + a3), Pad(b.month, 2) + ("-" + b3);
    var a1, b1 := Pad(a.year, 4) + ("-" + a2), Pad(b.year, 4) + ("-" + b2);
    assert Power10(2) == 100 && Power10(4) == 10_000 by {
      assert Power10(1) == 10 && Power10(3) == 1000;
    }
    PadOrder(a.year, b.year, 4);
    PadOrder(a.month, b.month, 2);
    PadOrder(a.day, b.day, 2);
    NotLessSelf(tail);
    SkipPart("audit-", a1, b1);
    TextLessParts(Pad(a.year, 4), "-" + a2, Pad(b.year, 4), "-" + b2);
    SkipPart("-", a2, b2);
    TextLessParts(Pad(a.month, 2), "-" + a3, Pad(b.month, 2), "-" + b3);
    SkipPart("-", a3, b3);
    TextLessParts(Pad(a.day, 2), tail, Pad(b.day, 2), tail);
  }

  // ---------------------------------------------------------------------
  // Sorted listings
  // ---------------------------------------------------------------------

  ghost predicate Latest(days: set<Day>, d: Day) {
    d in days && forall x :: x in days && x != d ==> DayLess(x, d)
  }

  lemma LatestExists(days: set<Day>)
    requires days != {}
    ensures exists d :: Latest(days, d)
  {
    var x :| x in days;
    var rest := days - {x};
    if rest == {} {
      assert days == {x};
      assert Latest(days, x);
    } else {
      LatestExists(rest);
      var d :| Latest(rest, d);
      var top := if DayLess(x, d) then d else x;
      forall y | y in days && y != top ensures DayLess(y, top) {
        assert y == x || y in rest;
      }
      assert Latest(days, top);
    }
  }

  /** The days from the earliest to the latest. */
  ghost function Sorted(days: set<Day>): seq<Day> {
    if days == {} then []
    else
      LatestExists(days);
      var d :| Latest(days, d);
      Sorted(days - {d}) + [d]
  }

  lemma SortedLatest(days: set<Day>, d: Day)
    requires Latest(days, d)
    ensures Sorted(days) == Sorted(days - {d}) + [d]
  {
  }

  /** What Files returns: the names of the directory in text order. */
  ghost predicate Listing(names: seq<Day>, days: set<Day>) {
    && (forall i :: 0 <= i < |names| ==> names[i] in days)
    && (forall d :: d in days ==> d in names)
    && (forall i, j :: 0 <= i < j < |names| ==> TextLess(FileName(names[i]), FileName(names[j])))
  }

  ghost predicate DateListing(names: seq<Day>, days: set<Day>) {
    && (forall i :: 0 <= i < |names| ==> names[i] in days)
    && (forall d :: d in days ==> d in names)
    && (forall i, j :: 0 <= i < j < |names| ==> DayLess(names[i], names[j]))
  }

  lemma ListingByDate(names: seq<Day>, days: set<Day>)
    requires Listing(names, days) && forall d :: d in days ==> Named(d)
    ensures DateListing(names, days)
  {
    forall i, j | 0 <= i < j < |names| ensures DayLess(names[i], names[j]) {
      assert names[i] in days && names[j] in days;
      NamesSortByDate(names[i], names[j]);
    }
  }

  lemma DateListingInit(names: seq<Day>, days: set<Day>)
    requires DateListing(names, days) && names != []
    ensures Latest(days, names[|names| - 1])
    ensures DateListing(names[..|names| - 1], days - {names[|names| - 1]})
  {
    var n := |names| - 1;
    var last, rest := names[n], names[..n];
    forall d | d in days - {last} ensures d in rest && DayLess(d, last) {
      assert d in names;
      var i :| 0 <= i < |names| && names[i] == d;
      assert rest[i] == d;
    }
    forall i | 0 <= i < |rest| ensures rest[i] in days - {last} {
      assert DayLess(names[i], last) && !DayLess(last, last);
    }
  }

  lemma {:induction false} DateListingIsSorted(names: seq<Day>, days: set<Day>)
    requires DateListing(names, days)
    ensures names == Sorted(days)
    decreases |names|
  {
    if names == [] {
      assert days == {};
    } else {
      var n := |names| - 1;
      DateListingInit(names, days);
      DateListingIsSorted(names[..n], days - {names[n]});
      SortedLatest(days, names[n]);
      assert names == names[..n] + [names[n]];
    }
  }

  /** The listing by name is the listing by date. */
  lemma ListingIsSorted(names: seq<Day>, days: set<Day>)
    requires Listing(names, days) && forall d :: d in days ==> Named(d)
    ensures names == Sorted(days)
  {
    ListingByDate(names, days);
    DateListingIsSorted(names, days);
  }

  /** Two sets of days, one wholly before the other, are listed one after the other. */
  lemma {:induction false} SortedSplit(early: set<Day>, late: set<Day>)
    requires forall x, y :: x in early && y in late ==> DayLess(x, y)
    ensures Sorted(early + late) == Sorted(early) + Sorted(late)
    decreases |late|
  {
    if late == {} {
      assert early + late == early;
    } else {
      LatestExists(late);
      var d :| Latest(late, d);
      assert early + late == (early + (late - {d})) + {d};
      SortedSplit(early, late - {d});
      SortedLatest(late, d);
      assert (early + late) - {d} == early + (late - {d}) by {
        assert !DayLess(d, d);
      }
      assert Latest(early + late, d);
      SortedLatest(early + late, d);
    }
  }

  /** Two digits. */
  lemma PadTwo(n: nat)
    requires n < 100
    ensures Pad(n, 2) == [('0' as int + n / 10) as char, ('0' as int + n % 10) as char]
  {
    assert Pad(n / 10, 1) == Pad(n / 10 / 10, 0) + [('0' as int + n / 10 % 10) as char];
  }

  /** Four digits. */
  lemma PadFour(n: nat)
    ensures Pad(n, 4) == Pad(n / 100, 2) + Pad(n % 100, 2)
  {
    var a, b := [('0' as int + n / 10 % 10) as char], [('0' as int + n % 10) as char];
    assert Pad(n / 10, 3) == Pad(n / 100, 2) + a;
    assert Pad(n, 4) == Pad(n / 10, 3) + b;
    PadTwo(n % 100);
    assert Pad(n % 100, 2) == a + b;
  }

  lemma Parts(p: string, y: string, m: string, d: string, tail: string)
    ensures p + (y + ("-" + (m + ("-" + (d + tail))))) == p + y + "-" + m + "-" + d + tail
  {
  }

  /** What the name of a day's file looks like. */
  lemma FileNameLooksLike(d: Day)
    ensures FileName(d) == "audit-" + Pad(d.year, 4) + "-" + Pad(d.month, 2) + "-" + Pad(d.day, 2) + ".jsonl"
  {
    Parts("audit-", Pad(d.year, 4), Pad(d.month, 2), Pad(d.day, 2), ".jsonl");
  }
}
