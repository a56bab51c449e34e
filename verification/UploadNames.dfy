/** The file names that a batch of uploads is given (safeFilename and the naming loop of downloadFiles in
    internal/agent/uploads.go). */
module UploadNames {
  import opened Wrappers
  import opened Numerals

  const MAX_FILES: nat := 10
  const MAX_NAME: nat := 160

  // ---------------------------------------------------------------------
  // One name
  // ---------------------------------------------------------------------

  predicate Mark(c: char) {
    c == '.' || c == '_' || c == '-'
  }

  predicate Allowed(c: char) {
    'A' <= c <= 'Z' || 'a' <= c <= 'z' || '0' <= c <= '9' || Mark(c)
  }

  /** White space in the sense of Unicode. */
  predicate Space(c: char) {
    var u := c as int;
    9 <= u <= 13 || u == 32 || u == 0x85 || u == 0xA0 || u == 0x1680 || 0x2000 <= u <= 0x200A ||
    u == 0x2028 || u == 0x2029 || u == 0x202F || u == 0x205F || u == 0x3000
  }

  /** The first position from i on whose character is not cut. */
  function Start(s: string, i: nat, cut: char -> bool): (j: nat)
    requires i <= |s|
    ensures i <= j <= |s|
    decreases |s| - i
  {
    if i < |s| && cut(s[i]) then Start(s, i + 1, cut) else i
  }

  /** The end of s[i..n] without the characters at the end that are cut. */
  function End(s: string, i: nat, n: nat, cut: char -> bool): (m: nat)
    requires i <= n <= |s|
    ensures i <= m <= n
  {
    if i < n && cut(s[n - 1]) then End(s, i, n - 1, cut) else n
  }

  /** s without the characters to be cut at both its ends. */
  function Trim(s: string, cut: char -> bool): string {
    var i := Start(s, 0, cut);
    s[i..End(s, i, |s|, cut)]
  }

  /** The position after the last slash of s[..n]. */
  function AfterSlash(s: string, n: nat): (i: nat)
    requires n <= |s|
    ensures i <= n
  {
    if n == 0 || s[n - 1] == '/' then n else AfterSlash(s, n - 1)
  }

  /** filepath.Base. */
  function Base(s: string): string {
    var n := End(s, 0, |s|, c => c == '/');
    if s == "" then "." else if n == 0 then "/" else s[AfterSlash(s, n)..n]
  }

  /** Every run of characters that are not allowed becomes one underscore; inRun says whether s[i] continues one. */
  function Cleaned(s: string, i: nat, inRun: bool): string
    requires i <= |s|
    decreases |s| - i
  {
    if i == |s| then ""
    else if Allowed(s[i]) then [s[i]] + Cleaned(s, i + 1, false)
    else (if inRun then "" else "_") + Cleaned(s, i + 1, true)
  }

  function SafeFilename(name: string, index: nat): string {
    var t := Trim(Cleaned(Base(Trim(name, Space)), 0, false), Mark);
    var u := if t == "" then "file-" + Decimal(index + 1) else t;
    if |u| > MAX_NAME then u[..MAX_NAME] else u
  }

  /** A name that stays inside its directory: not empty, without a slash, and no name for a directory. */
  predicate Plain(s: string) {
    s != "" && !Mark(s[0]) && forall i :: 0 <= i < |s| ==> Allowed(s[i])
  }

  lemma {:induction false} StartStops(s: string, i: nat, cut: char -> bool)
    requires i <= |s|
    ensures Start(s, i, cut) < |s| ==> !cut(s[Start(s, i, cut)])
    decreases |s| - i
  {
    if i < |s| && cut(s[i]) {
      StartStops(s, i + 1, cut);
    }
  }

  lemma {:induction false} EndStops(s: string, i: nat, n: nat, cut: char -> bool)
    requires i <= n <= |s|
    ensures End(s, i, n, cut) > i ==> !cut(s[End(s, i, n, cut) - 1])
    ensures i < n && !cut(s[i]) ==> End(s, i, n, cut) > i
  {
    if i < n && cut(s[n - 1]) {
      EndStops(s, i, n - 1, cut);
    }
  }

  lemma {:induction false} CleanedIsAllowed(s: string, i: nat, inRun: bool)
    requires i <= |s|
    ensures forall j :: 0 <= j < |Cleaned(s, i, inRun)| ==> Allowed(Cleaned(s, i, inRun)[j])
    decreases |s| - i
  {
    if i < |s| {
      CleanedIsAllowed(s, i + 1, !Allowed(s[i]));
    }
  }

  lemma TrimmedIsPlain(s: string)
    requires forall j :: 0 <= j < |s| ==> Allowed(s[j])
    ensures Trim(s, Mark) == "" || Plain(Trim(s, Mark))
  {
    StartStops(s, 0, Mark);
  }

  /** Whatever a file is called, its safe name is plain and at most 160 characters long. */
  lemma SafeFilenameIsPlain(name: string, index: nat)
    ensures Plain(SafeFilename(name, index)) && |SafeFilename(name, index)| <= 160
    ensures var safe := SafeFilename(name, index);
            && safe != "" && safe != "." && safe != ".." && safe[0] != '.' && safe[0] != '_' && safe[0] != '-'
            && forall i :: 0 <= i < |safe| ==>
                 'A' <= safe[i] <= 'Z' || 'a' <= safe[i] <= 'z' || '0' <= safe[i] <= '9' ||
                 safe[i] == '.' || safe[i] == '_' || safe[i] == '-'
  {
    CleanedIsAllowed(Base(Trim(name, Space)), 0, false);
    TrimmedIsPlain(Cleaned(Base(Trim(name, Space)), 0, false));
  }

  lemma {:induction false} NoSlash(s: string, n: nat)
    requires n <= |s| && forall i :: 0 <= i < n ==> s[i] != '/'
    ensures AfterSlash(s, n) == 0
  {
    if n > 0 {
      NoSlash(s, n - 1);
    }
  }

  lemma {:induction false} CleanedOfPlain(s: string, i: nat)
    requires i <= |s| && forall j :: 0 <= j < |s| ==> Allowed(s[j])
    ensures Cleaned(s, i, false) == s[i..]
    decreases |s| - i
  {
    if i < |s| {
      CleanedOfPlain(s, i + 1);
      assert s[i..] == [s[i]] + s[i + 1..];
    }
  }

  /** A plain name of at most 160 characters that does not end in a mark is kept as it is. */
  lemma PlainNameIsKept(name: string, index: nat)
    requires Plain(name) && !Mark(name[|name| - 1]) && |name| <= MAX_NAME
    ensures SafeFilename(name, index) == name
  {
    assert Allowed(name[0]) && Allowed(name[|name| - 1]);
    assert Trim(name, Space) == name;
    NoSlash(name, |name|);
    CleanedOfPlain(name, 0);
    assert name[0..] == name;
  }

  // What the steps of SafeFilename mean, without their loops.

  ghost predicate AllCut(s: string, cut: char -> bool) {
    forall i :: 0 <= i < |s| ==> cut(s[i])
  }

  lemma {:induction false} StartSkips(s: string, i: nat, j: nat, cut: char -> bool)
    requires i <= j <= |s| && (forall k :: i <= k < j ==> cut(s[k])) && (j < |s| ==> !cut(s[j]))
    ensures Start(s, i, cut) == j
    decreases j - i
  {
    if i < j {
      StartSkips(s, i + 1, j, cut);
    }
  }

  lemma {:induction false} EndSkips(s: string, i: nat, m: nat, n: nat, cut: char -> bool)
    requires i <= m <= n <= |s| && (forall k :: m <= k < n ==> cut(s[k])) && (m > i ==> !cut(s[m - 1]))
    ensures End(s, i, n, cut) == m
    decreases n - m
  {
    if m < n {
      EndSkips(s, i, m, n - 1, cut);
    }
  }

  /** Trimming takes away exactly what is to be cut at both ends. */
  lemma TrimIsMiddle(p: string, m: string, q: string, cut: char -> bool)
    requires AllCut(p, cut) && AllCut(q, cut) && m != "" && !cut(m[0]) && !cut(m[|m| - 1])
    ensures Trim(p + m + q, cut) == m
  {
    var s := p + m + q;
    assert s[|p|] == m[0] && s[|p| + |m| - 1] == m[|m| - 1];
    StartSkips(s, 0, |p|, cut);
    EndSkips(s, |p|, |p| + |m|, |s|, cut);
  }

  predicate Slash(c: char) {
    c == '/'
  }

  lemma {:induction false} AfterSlashIs(s: string, i: nat, n: nat)
    requires i <= n <= |s| && (i > 0 ==> s[i - 1] == '/') && forall k :: i <= k < n ==> s[k] != '/'
    ensures AfterSlash(s, n) == i
    decreases n - i
  {
    if i < n {
      AfterSlashIs(s, i, n - 1);
    }
  }

  /** The base of a path is its last part that is not empty. */
  lemma BaseIsLastPart(dir: string, last: string, slashes: string)
    requires dir == "" || dir[|dir| - 1] == '/'
    requires last != "" && AllCut(slashes, Slash) && forall i :: 0 <= i < |last| ==> last[i] != '/'
    ensures Base(dir + last + slashes) == last
  {
    var s, n := dir + last + slashes, |dir| + |last|;
    assert s[n - 1] == last[|last| - 1];
    EndSkips(s, 0, n, |s|, c => c == '/');
    AfterSlashIs(s, |dir|, n);
    assert s[|dir|..n] == last;
  }

  lemma {:induction false} CleanedFrom(s: string, i: nat, t: string, j: nat, inRun: bool)
    requires i <= |s| && j <= |t| && s[i..] == t[j..]
    ensures Cleaned(s, i, inRun) == Cleaned(t, j, inRun)
    decreases |s| - i
  {
    assert |s| - i == |s[i..]| == |t[j..]| == |t| - j;
    if i < |s| {
      assert s[i] == s[i..][0] == t[j];
      assert s[i + 1..] == s[i..][1..] == t[j + 1..];
      CleanedFrom(s, i + 1, t, j + 1, !Allowed(s[i]));
    }
  }

  /** Allowed characters stay. */
  lemma {:induction false} CleanedKeeps(a: string, rest: string)
    requires forall i :: 0 <= i < |a| ==> Allowed(a[i])
    requires a != ""
    ensures Cleaned(a + rest, 0, false) == a + Cleaned(rest, 0, false)
  {
    var s := a + rest;
    CleanedFrom(s, 1, a[1..] + rest, 0, false);
    if |a| > 1 {
      CleanedKeeps(a[1..], rest);
    } else {
      assert a[1..] + rest == rest;
    }
    assert a == [a[0]] + a[1..];
  }

  lemma {:induction false} RunDrops(x: string, rest: string)
    requires (forall i :: 0 <= i < |x| ==> !Allowed(x[i])) && (rest == "" || Allowed(rest[0]))
    ensures Cleaned(x + rest, 0, true) == Cleaned(rest, 0, false)
  {
    var s := x + rest;
    if x == "" {
      assert s == rest;
    } else {
      CleanedFrom(s, 1, x[1..] + rest, 0, true);
      RunDrops(x[1..], rest);
    }
  }

  /** A run of other characters becomes one underscore. */
  lemma CleanedReplaces(x: string, rest: string)
    requires x != "" && (forall i :: 0 <= i < |x| ==> !Allowed(x[i])) && (rest == "" || Allowed(rest[0]))
    ensures Cleaned(x + rest, 0, false) == "_" + Cleaned(rest, 0, false)
  {
    var s := x + rest;
    CleanedFrom(s, 1, x[1..] + rest, 0, true);
    RunDrops(x[1..], rest);
  }

  /** Names keep letters and digits of ASCII and the three marks, and do not begin or end with a mark. */
  lemma MarksAndLetters(c: char)
    ensures Mark(c) <==> c in {'.', '_', '-'}
    ensures Allowed(c) <==> 'A' <= c <= 'Z' || 'a' <= c <= 'z' || '0' <= c <= '9' || c in {'.', '_', '-'}
  {
  }

  /** The code points with the property White_Space. */
  lemma SpaceMeans(c: char)
    ensures Space(c) <==>
            c as int in {0x9, 0xA, 0xB, 0xC, 0xD, 0x20, 0x85, 0xA0, 0x1680, 0x2000, 0x2001, 0x2002, 0x2003, 0x2004,
                         0x2005, 0x2006, 0x2007, 0x2008, 0x2009, 0x200A, 0x2028, 0x2029, 0x202F, 0x205F, 0x3000}
  {
  }

  /** The name is the cleaned base without marks at its ends, or a numbered one when nothing is left, cut to 160. */
  lemma SafeFilenameIs(name: string, index: nat)
    ensures var t := Trim(Cleaned(Base(Trim(name, Space)), 0, false), Mark);
            if t == "" then |Decimal(index + 1)| <= 155 ==> SafeFilename(name, index) == "file-" + Decimal(index + 1)
            else SafeFilename(name, index) == if |t| > 160 then t[..160] else t
  {
  }

  // ---------------------------------------------------------------------
  // The names of a batch
  // ---------------------------------------------------------------------

  function Prefixed(index: nat, safe: string): string {
    Decimal(index + 1) + ['-'] + safe
  }

  function NextName(names: seq<string>, safe: string): string {
    if safe in names then Prefixed(|names|, safe) else safe
  }

  /** The names given to files with these safe names. */
  function Names(safes: seq<string>): (names: seq<string>)
    ensures |names| == |safes|
  {
    if safes == [] then []
    else
      var names := Names(safes[..|safes| - 1]);
      names + [NextName(names, safes[|safes| - 1])]
  }

  /** One entry of openaiFileIdRefs. */
  datatype Ref = Unexpanded | Invalid | Valid(name: string)

  datatype Failure = TooMany | NotExpanded(index: nat) | BadReference(index: nat)

  function FailureOf(ref: Ref, index: nat): Failure {
    if ref.Unexpanded? then NotExpanded(index) else BadReference(index)
  }

  predicate AllValid(refs: seq<Ref>, n: nat)
    requires n <= |refs|
  {
    forall i :: 0 <= i < n ==> refs[i].Valid?
  }

  /** The first reference that cannot be used is the one at i. */
  predicate FirstBad(refs: seq<Ref>, i: nat) {
    i < |refs| && AllValid(refs, i) && !refs[i].Valid?
  }

  type Naming = (string, nat) -> string

  /** The safe names of the first n files. */
  function Safes(safe: Naming, refs: seq<Ref>, n: nat): (safes: seq<string>)
    requires n <= |refs| && AllValid(refs, n)
    ensures |safes| == n
  {
    if n == 0 then [] else Safes(safe, refs, n - 1) + [safe(refs[n - 1].name, n - 1)]
  }

  lemma OneMoreName(safe: Naming, refs: seq<Ref>, i: nat)
    requires i < |refs| && AllValid(refs, i + 1)
    ensures var names := Names(Safes(safe, refs, i));
            Names(Safes(safe, refs, i + 1)) == names + [NextName(names, safe(refs[i].name, i))]
  {
    assert Safes(safe, refs, i + 1)[..i] == Safes(safe, refs, i);
  }

  /** Checks the references and names the files, with SafeFilename for safe. dir says whether the batch has a
      directory afterwards. */
  method NameFiles(safe: Naming, refs: seq<Ref>) returns (r: Result<seq<string>, Failure>, dir: bool)
    ensures dir <==> r.Ok? && refs != []
    ensures r.Ok? <==> |refs| <= 10 && forall i :: 0 <= i < |refs| ==> refs[i].Valid?
    ensures r.Ok? ==> r.value == Names(Safes(safe, refs, |refs|))
    ensures |refs| > 10 ==> r == Err(TooMany)
    ensures r.Err? && |refs| <= 10 ==>
              exists i: nat ::
                FirstBad(refs, i) && r.error == if refs[i].Unexpanded? then NotExpanded(i) else BadReference(i)
  {
    if refs == [] {
      return Ok([]), false;
    }
    if |refs| > MAX_FILES {
      return Err(TooMany), false;
    }
    dir := true;
    var names: seq<string>, used: set<string> := [], {};
    for i := 0 to |refs|
      invariant dir && |names| == i && AllValid(refs, i)
      invariant names == Names(Safes(safe, refs, i))
      invariant forall x :: x in used <==> x in names
    {
      if !refs[i].Valid? {
        assert FirstBad(refs, i);
        return Err(FailureOf(refs[i], i)), false;
      }
      var name := safe(refs[i].name, i);
      OneMoreName(safe, refs, i);
      if name in used {
        name := Prefixed(i, name);
      }
      used := used + {name};
      names := names + [name];
    }
    r := Ok(names);
  }

  // ---------------------------------------------------------------------
  // When names are distinct
  // ---------------------------------------------------------------------

  predicate Distinct(names: seq<string>) {
    forall i, j :: 0 <= i < j < |names| ==> names[i] != names[j]
  }

  lemma {:induction false} NameAt(safes: seq<string>, i: nat)
    requires i < |safes|
    ensures Names(safes[..i]) == Names(safes)[..i]
    ensures Names(safes)[i] == NextName(Names(safes)[..i], safes[i])
  {
    var front := safes[..|safes| - 1];
    if i < |front| {
      NameAt(front, i);
      assert front[..i] == safes[..i];
      assert Names(safes)[..i] == Names(front)[..i];
    } else {
      assert Names(safes)[..i] == Names(front);
    }
  }

  /** Each file keeps its safe name unless an earlier file has it as its name; then its number goes in front. */
  lemma NameGiven(safes: seq<string>, i: nat)
    requires i < |safes|
    ensures Names(safes)[i] ==
            if exists j :: 0 <= j < i && Names(safes)[j] == safes[i] then Decimal(i + 1) + ['-'] + safes[i]
            else safes[i]
  {
    NameAt(safes, i);
    assert safes[i] in Names(safes)[..i] <==> exists j :: 0 <= j < i && Names(safes)[j] == safes[i];
  }

  lemma PrefixedInjective(i: nat, x: string, j: nat, y: string)
    requires Prefixed(i, x) == Prefixed(j, y)
    ensures i == j && x == y
  {
    var s, a, b := Prefixed(i, x), Decimal(i + 1), Decimal(j + 1);
    assert s[|a|] == '-' && s[|b|] == '-';
    assert forall k :: 0 <= k < |a| ==> s[k] == a[k];
    assert forall k :: 0 <= k < |b| ==> s[k] == b[k];
    assert |a| == |b|;
    assert a == s[..|a|] == b && x == s[|a| + 1..] == y;
    DecimalInjective(i + 1, j + 1);
  }

  /** File i repeats an earlier name, and the name it gets instead was the safe name of an earlier file. */
  predicate Clash(safes: seq<string>, i: nat)
    requires i < |safes|
  {
    safes[i] in Names(safes)[..i] && Prefixed(i, safes[i]) in safes[..i]
  }

  lemma ClashRepeats(safes: seq<string>, i: nat)
    requires i < |safes| && Clash(safes, i)
    ensures !Distinct(Names(safes))
  {
    var names := Names(safes);
    NameAt(safes, i);
    var j :| 0 <= j < i && safes[j] == Prefixed(i, safes[i]);
    NameAt(safes, j);
    if safes[j] in names[..j] {
      var k :| 0 <= k < j && names[k] == safes[j];
      assert names[k] == names[i];
    } else {
      assert names[j] == names[i];
    }
  }

  lemma RepeatClashes(safes: seq<string>, j: nat, i: nat)
    requires j < i < |safes| && Names(safes)[j] == Names(safes)[i]
    ensures Clash(safes, i)
  {
    var names := Names(safes);
    NameAt(safes, i);
    NameAt(safes, j);
    assert names[j] in names[..i];
    assert safes[i] in names[..i];
    if safes[j] in names[..j] {
      PrefixedInjective(j, safes[j], i, safes[i]);
    }
    assert safes[j] in safes[..i];
  }

  /** The names of a batch are distinct exactly if no file clashes. */
  lemma DistinctIffNoClash(safes: seq<string>)
    ensures Distinct(Names(safes)) <==> forall i :: 0 <= i < |safes| ==> !Clash(safes, i)
  {
    if i :| 0 <= i < |safes| && Clash(safes, i) {
      ClashRepeats(safes, i);
    } else if !Distinct(Names(safes)) {
      var j, i :| 0 <= j < i < |safes| && Names(safes)[j] == Names(safes)[i];
      RepeatClashes(safes, j, i);
    }
  }

  /** Three ordinary names that clash. */
  lemma NamesCanClash()
    ensures Names(["3-a", "a", "a"]) == ["3-a", "a", "3-a"] && !Distinct(Names(["3-a", "a", "a"]))
  {
    var one, two, three := ["3-a"], ["3-a", "a"], ["3-a", "a", "a"];
    assert one[..0] == [] && two[..1] == one && three[..2] == two;
    assert Names(one) == ["3-a"];
    assert Names(two) == ["3-a", "a"];
    assert Prefixed(2, "a") == "3-a";
    assert Names(three)[0] == Names(three)[2];
  }

  lemma {:induction false} SafeAt(safe: Naming, refs: seq<Ref>, n: nat, i: nat)
    requires i < n <= |refs| && AllValid(refs, n)
    ensures Safes(safe, refs, n)[i] == safe(refs[i].name, i)
  {
    if i < n - 1 {
      SafeAt(safe, refs, n - 1, i);
    }
  }

  /** All safe names are plain, as those of SafeFilename are. */
  ghost predicate PlainNaming(safe: Naming) {
    forall name: string, k: nat :: Plain(safe(name, k))
  }

  lemma SafeNamingIsPlain()
    ensures PlainNaming(SafeFilename)
  {
    forall name: string, k: nat ensures Plain(SafeFilename(name, k)) {
      SafeFilenameIsPlain(name, k);
    }
  }

  /** Distinct or not, all names stay inside the directory. */
  lemma NamesArePlain(safe: Naming, refs: seq<Ref>, i: nat)
    requires i < |refs| && AllValid(refs, |refs|) && PlainNaming(safe)
    ensures Plain(Names(Safes(safe, refs, |refs|))[i])
  {
    var safes := Safes(safe, refs, |refs|);
    NameAt(safes, i);
    SafeAt(safe, refs, |refs|, i);
    PrefixedIsPlain(i, safes[i]);
  }

  lemma PrefixedIsPlain(i: nat, s: string)
    requires Plain(s)
    ensures Plain(Prefixed(i, s))
  {
  }
}
