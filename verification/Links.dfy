/** Download links as text: how URL writes them and how ServeHTTP reads a request target
    (internal/agent/artifact.go, with the escaping rules of net/url). Strings are byte strings. */
module Links {
  import opened Wrappers
  import opened Numerals

  /** The fixed parts of a link. */
  datatype Layout = Layout(prefix: string, expiresKey: string, signatureKey: string)

  const DOWNLOAD: Layout := Layout("/v1/files/download/", "expires", "signature")

  /** What a request asks for. expires and signature are None where they do not parse. */
  datatype Asked = Asked(id: string, name: string, expires: Option<int>, signature: Option<seq<byte>>)

  predicate IsByte(c: char) {
    c as int < 256
  }

  predicate IsBytes(s: string) {
    forall i :: 0 <= i < |s| ==> IsByte(s[i])
  }

  predicate Unescaped(c: char) {
    'a' <= c <= 'z' || 'A' <= c <= 'Z' || '0' <= c <= '9' || c in {'-', '_', '.', '~', '$', '&', '+', ':', '=', '@'}
  }

  function EscapeChar(c: char): string {
    if Unescaped(c) || !IsByte(c) then [c] else "%" + HexPair(c as int, true)
  }

  /** Each character spelled out in turn. */
  function Spell(e: char -> string, s: string): string {
    if s == "" then "" else e(s[0]) + Spell(e, s[1..])
  }

  /** url.PathEscape. */
  function PathEscape(s: string): string {
    Spell(EscapeChar, s)
  }

  /** The character at the front of escaped text and the number of characters that stand for it. */
  function Front(s: string, plus: bool): (r: Option<(char, nat)>)
    requires s != ""
    ensures r.Some? ==> 0 < r.value.1 <= |s|
  {
    if s[0] != '%' then Some((if plus && s[0] == '+' then ' ' else s[0], 1))
    else if |s| < 3 || ByteOfPair(s[1], s[2]).None? then None
    else Some((ByteOfPair(s[1], s[2]).value as char, 3))
  }

  /** Unescaping of a path, or with plus of a query component. None when an escape is malformed. */
  function Unescape(s: string, plus: bool): Option<string> {
    if s == "" then Some("")
    else if Front(s, plus).None? then None
    else
      match Unescape(s[Front(s, plus).value.1..], plus)
      case None => None
      case Some(rest) => Some([Front(s, plus).value.0] + rest)
  }

  /** The first position of c, or the length. */
  function Index(s: string, c: char): (i: nat)
    ensures i <= |s| && (i < |s| ==> s[i] == c) && Without(s[..i], c)
  {
    if s == "" || s[0] == c then 0 else 1 + Index(s[1..], c)
  }

  function Split(s: string, c: char): seq<string>
    decreases |s|
  {
    var i := Index(s, c);
    if i == |s| then [s] else [s[..i]] + Split(s[i + 1..], c)
  }

  /** The value of the first readable pair with this key, or "". */
  function Get(pairs: seq<string>, key: string): string {
    if pairs == [] then ""
    else
      var p := pairs[0];
      var i := Index(p, '=');
      var k := Unescape(p[..i], true);
      var v := Unescape(if i < |p| then p[i + 1..] else "", true);
      if p != "" && Without(p, ';') && k == Some(key) && v.Some? then v.value else Get(pairs[1..], key)
  }

  function Path(prefix: string, id: string, name: string): string
    requires IsBytes(id) && IsBytes(name)
  {
    prefix + PathEscape(id) + "/" + PathEscape(name)
  }

  function Query(k: string, v: string, k': string, v': string): string {
    k + "=" + v + "&" + k' + "=" + v'
  }

  /** The part of a link after the base URL. */
  function Link(l: Layout, id: string, name: string, expires: int, signature: seq<byte>): string
    requires IsBytes(id) && IsBytes(name)
  {
    Path(l.prefix, id, name) + "?" + Query(l.expiresKey, Format(expires), l.signatureKey, Hex(signature))
  }

  function TrimPrefix(s: string, prefix: string): string {
    if prefix <= s then s[|prefix|..] else s
  }

  /** What the handler reads from a request target; None when the path has not exactly two parts. */
  function Ask(l: Layout, target: string): Option<Asked> {
    var i := Index(target, '?');
    var query := Split(if i < |target| then target[i + 1..] else "", '&');
    match Unescape(target[..i], false)
    case None => None
    case Some(path) =>
      var parts := Split(TrimPrefix(path, l.prefix), '/');
      if |parts| != 2 then None
      else Some(Asked(parts[0], parts[1], ParseInt(Get(query, l.expiresKey)), Unhex(Get(query, l.signatureKey))))
  }

  // ---------------------------------------------------------------------
  // Reading back
  // ---------------------------------------------------------------------

  lemma {:induction false} IndexAfter(a: string, c: char, b: string)
    requires Without(a, c)
    ensures Index(a, c) == |a|
    ensures Index(a + [c] + b, c) == |a|
  {
    if a != "" {
      assert (a + [c] + b)[1..] == a[1..] + [c] + b;
      IndexAfter(a[1..], c, b);
    }
  }

  /** A separator free prefix splits off. */
  lemma SplitAfter(a: string, c: char, b: string)
    requires Without(a, c)
    ensures Split(a, c) == [a]
    ensures Split(a + [c] + b, c) == [a] + Split(b, c)
  {
    IndexAfter(a, c, b);
    assert (a + [c] + b)[..|a|] == a && (a + [c] + b)[|a| + 1..] == b;
  }

  predicate Without(s: string, c: char) {
    forall i :: 0 <= i < |s| ==> s[i] != c
  }

  type Reader = string -> Option<string>

  /** The reader u undoes the spelling e of the character c, whatever follows. */
  ghost predicate UndoesAt(u: Reader, e: char -> string, c: char, tail: string, x: string) {
    u(tail) == Some(x) ==> u(e(c) + tail) == Some([c] + x)
  }

  ghost predicate Undoes(u: Reader, e: char -> string, s: string) {
    forall i: nat, tail: string, x: string :: i < |s| ==> UndoesAt(u, e, s[i], tail, x)
  }

  /** A reader that undoes the spelling of single characters undoes that of a whole string. */
  lemma {:induction false} SpellReadsBack(u: Reader, e: char -> string, s: string, tail: string, x: string)
    requires Undoes(u, e, s) && u(tail) == Some(x)
    ensures u(Spell(e, s) + tail) == Some(s + x)
  {
    if s == "" {
      assert Spell(e, s) + tail == tail && s + x == x;
    } else {
      var rest := s[1..];
      SpellReadsBack(u, e, rest, tail, x);
      assert UndoesAt(u, e, s[0], Spell(e, rest) + tail, rest + x);
      assert Spell(e, s) + tail == e(s[0]) + (Spell(e, rest) + tail);
      assert s + x == [s[0]] + (rest + x);
    }
  }

  function Plain(c: char): string {
    [c]
  }

  lemma {:induction false} SpellPlain(s: string)
    ensures Spell(Plain, s) == s
  {
    if s != "" {
      SpellPlain(s[1..]);
      assert s == [s[0]] + s[1..];
    }
  }

  function Unescaper(plus: bool): Reader {
    s => Unescape(s, plus)
  }

  lemma EscapeUndone(s: string)
    requires IsBytes(s)
    ensures Undoes(Unescaper(false), EscapeChar, s)
  {
    forall i: nat, tail: string, x: string | i < |s| ensures UndoesAt(Unescaper(false), EscapeChar, s[i], tail, x) {
      CharUndone(s[i], tail, x);
    }
  }

  lemma CharUndone(c: char, tail: string, x: string)
    requires IsByte(c)
    ensures UndoesAt(Unescaper(false), EscapeChar, c, tail, x)
  {
    var t := EscapeChar(c) + tail;
    if Unescaped(c) {
      assert t[0] == c && t[1..] == tail;
    } else {
      var pair := HexPair(c as int, true);
      PairReadsBack(c as int, true);
      assert t[0] == '%' && t[1] == pair[0] && t[2] == pair[1] && t[3..] == tail;
    }
  }

  lemma PlainUndone(s: string, plus: bool)
    requires Without(s, '%') && (plus ==> Without(s, '+'))
    ensures Undoes(Unescaper(plus), Plain, s)
  {
    forall i: nat, tail: string, x: string | i < |s| ensures UndoesAt(Unescaper(plus), Plain, s[i], tail, x) {
      assert ([s[i]] + tail)[1..] == tail;
    }
  }

  /** Text without escapes reads as itself, alone or before more text. */
  lemma PlainReadsBack(u: Reader, p: string, tail: string, x: string)
    requires Undoes(u, Plain, p) && u(tail) == Some(x)
    ensures u(p + tail) == Some(p + x)
  {
    SpellPlain(p);
    SpellReadsBack(u, Plain, p, tail, x);
  }

  lemma PlainUnescapes(s: string)
    requires Without(s, '%') && Without(s, '+')
    ensures Unescape(s, true) == Some(s)
  {
    PlainUndone(s, true);
    PlainReadsBack(Unescaper(true), s, "", "");
    assert s + "" == s;
  }

  /** Two parts, the first one plain and the second one escaped. */
  lemma PartReads(u: Reader, plain: string, escaped: string, tail: string, x: string)
    requires Undoes(u, Plain, plain) && Undoes(u, EscapeChar, escaped) && u(tail) == Some(x)
    ensures u(plain + (PathEscape(escaped) + tail)) == Some(plain + (escaped + x))
  {
    SpellReadsBack(u, EscapeChar, escaped, tail, x);
    PlainReadsBack(u, plain, PathEscape(escaped) + tail, escaped + x);
  }

  lemma PathParts(a: string, b: string, c: string, d: string)
    ensures a + (b + (c + (d + ""))) == a + b + c + d == a + (b + c + d)
  {
  }

  lemma PathReadsBack(prefix: string, id: string, name: string)
    requires IsBytes(id) && IsBytes(name) && Without(prefix, '%')
    ensures Unescape(Path(prefix, id, name), false) == Some(prefix + (id + ['/'] + name))
  {
    PlainUndone(prefix, false);
    PlainUndone("/", false);
    EscapeUndone(id);
    EscapeUndone(name);
    var slash, e, n := "/", PathEscape(id), PathEscape(name);
    PartReads(Unescaper(false), slash, name, "", "");
    PartReads(Unescaper(false), prefix, id, slash + (n + ""), slash + (name + ""));
    PathParts(prefix, e, slash, n);
    PathParts(prefix, id, slash, name);
  }

  lemma {:induction false} EscapedHasNoMark(s: string)
    requires IsBytes(s)
    ensures Without(PathEscape(s), '?')
  {
    if s != "" {
      EscapedHasNoMark(s[1..]);
      assert Without(EscapeChar(s[0]), '?');
    }
  }

  predicate PlainValue(s: string) {
    forall i :: 0 <= i < |s| ==> s[i] == '-' || '0' <= s[i] <= '9' || 'a' <= s[i] <= 'f'
  }

  predicate PlainKey(s: string) {
    s != "" && forall i :: 0 <= i < |s| ==> 'a' <= s[i] <= 'z'
  }

  /** A pair whose value is a numeral is read back under its key and skipped under another one. */
  lemma PairValue(key: string, value: string, rest: seq<string>, other: string)
    requires PlainKey(key) && PlainValue(value)
    ensures Get([key + "=" + value] + rest, key) == value
    ensures other != key ==> Get([key + "=" + value] + rest, other) == Get(rest, other)
  {
    var p := key + ['='] + value;
    IndexAfter(key, '=', value);
    PlainUnescapes(key);
    PlainUnescapes(value);
    assert p[..|key|] == key && p[|key| + 1..] == value;
    assert ([p] + rest)[1..] == rest;
    assert Without(p, ';');
  }

  lemma FormatIsPlain(x: int)
    ensures PlainValue(Format(x))
  {
  }

  lemma QueryReadsBack(k: string, v: string, k': string, v': string)
    requires PlainKey(k) && PlainKey(k') && k != k' && PlainValue(v) && PlainValue(v')
    ensures var pairs := Split(Query(k, v, k', v'), '&'); Get(pairs, k) == v && Get(pairs, k') == v'
  {
    var p, p' := k + ['='] + v, k' + ['='] + v';
    SplitAfter(p', '&', "");
    SplitAfter(p, '&', p');
    assert Query(k, v, k', v') == p + ['&'] + p';
    PairValue(k, v, [p'], k');
    PairValue(k', v', [], k);
    assert [p'] + [] == [p'] && [p] + [p'] == [p, p'];
  }

  lemma TargetSplits(path: string, query: string)
    requires Without(path, '?')
    ensures var target := path + "?" + query;
            var i := Index(target, '?');
            i < |target| && target[..i] == path && target[i + 1..] == query
  {
    IndexAfter(path, '?', query);
    assert path + "?" + query == path + ['?'] + query;
  }

  lemma PartsReadBack(prefix: string, id: string, name: string)
    requires Without(id, '/') && Without(name, '/')
    ensures Split(TrimPrefix(prefix + (id + ['/'] + name), prefix), '/') == [id, name]
  {
    SplitAfter(name, '/', "");
    SplitAfter(id, '/', name);
    assert (prefix + (id + ['/'] + name))[|prefix|..] == id + ['/'] + name;
    assert [id] + [name] == [id, name];
  }

  ghost predicate GoodLayout(l: Layout) {
    && Without(l.prefix, '%') && Without(l.prefix, '?')
    && PlainKey(l.expiresKey) && PlainKey(l.signatureKey) && l.expiresKey != l.signatureKey
  }

  /** A link reads back as its own id, name, expiry and signature. */
  lemma LinkReadsBack(l: Layout, id: string, name: string, expires: int, signature: seq<byte>)
    requires GoodLayout(l)
    requires IsBytes(id) && IsBytes(name) && Without(id, '/') && Without(name, '/') && -TWO_63 <= expires < TWO_63
    ensures Ask(l, Link(l, id, name, expires, signature)) == Some(Asked(id, name, Some(expires), Some(signature)))
  {
    EscapedHasNoMark(id);
    EscapedHasNoMark(name);
    FormatIsPlain(expires);
    HexReadsBack(signature);
    HexDigits(signature);
    IntReadsBack(expires);
    TargetSplits(Path(l.prefix, id, name), Query(l.expiresKey, Format(expires), l.signatureKey, Hex(signature)));
    PathReadsBack(l.prefix, id, name);
    PartsReadBack(l.prefix, id, name);
    QueryReadsBack(l.expiresKey, Format(expires), l.signatureKey, Hex(signature));
  }

  lemma DownloadLayout()
    ensures GoodLayout(DOWNLOAD)
  {
  }

  /** What a download link looks like. */
  lemma LinkLooksLike(id: string, name: string, expires: int, signature: seq<byte>)
    requires IsBytes(id) && IsBytes(name)
    ensures Link(DOWNLOAD, id, name, expires, signature) ==
            "/v1/files/download/" + PathEscape(id) + "/" + PathEscape(name) +
            "?" + ("expires=" + Format(expires) + "&" + "signature" + "=" + Hex(signature))
  {
    assert Query("expires", Format(expires), "signature", Hex(signature)) ==
           "expires=" + Format(expires) + "&" + "signature" + "=" + Hex(signature);
  }

  /** Splitting gives two parts exactly when there is one separator. */
  lemma SplitInTwo(s: string, c: char)
    ensures |Split(s, c)| == 2 ==>
              && s == Split(s, c)[0] + [c] + Split(s, c)[1]
              && Without(Split(s, c)[0], c) && Without(Split(s, c)[1], c)
  {
    var i := Index(s, c);
    if i < |s| {
      var rest := s[i + 1..];
      var j := Index(rest, c);
      assert s == s[..i] + [c] + rest;
      if j < |rest| {
        assert Split(rest, c) == [rest[..j]] + Split(rest[j + 1..], c);
      }
    }
  }

  /** What the handler takes for id and name: the unescaped path after the prefix has exactly these two parts. */
  lemma AskedParts(l: Layout, target: string)
    requires Ask(l, target).Some?
    ensures var q, path := Ask(l, target).value, Unescape(target[..Index(target, '?')], false);
            && path.Some? && TrimPrefix(path.value, l.prefix) == q.id + ['/'] + q.name
            && Without(q.id, '/') && Without(q.name, '/')
  {
    SplitInTwo(TrimPrefix(Unescape(target[..Index(target, '?')], false).value, l.prefix), '/');
  }

  /** Letters, digits and the marks of capture files stand in a link as they are. */
  lemma {:induction false} PathEscapeKeeps(s: string)
    requires forall i :: 0 <= i < |s| ==>
               'a' <= s[i] <= 'z' || 'A' <= s[i] <= 'Z' || '0' <= s[i] <= '9' || s[i] == '-' || s[i] == '.'
    ensures PathEscape(s) == s
  {
    if s != "" {
      PathEscapeKeeps(s[1..]);
      assert s == [s[0]] + s[1..];
    }
  }

  function Prepend(c: char, rest: Option<string>): Option<string> {
    if rest.None? then None else Some([c] + rest.value)
  }

  /** A character that is no percent sign stands for itself, and in a query a plus sign for a space. */
  lemma PlainCharacterRead(c: char, rest: string, plus: bool)
    requires c != '%'
    ensures Unescape([c] + rest, plus) == Prepend(if plus && c == '+' then ' ' else c, Unescape(rest, plus))
  {
    assert ([c] + rest)[1..] == rest;
  }

  /** A percent sign must be followed by two hexadecimal digits, and stands with them for one byte. */
  lemma EscapeRead(hi: char, lo: char, rest: string, plus: bool)
    ensures Unescape(['%', hi, lo] + rest, plus) ==
            if HexValue(hi).None? || HexValue(lo).None? then None
            else Prepend((16 * HexValue(hi).value + HexValue(lo).value) as char, Unescape(rest, plus))
    ensures Unescape(['%'], plus) == None && Unescape(['%', hi], plus) == None
  {
    var s := ['%', hi, lo] + rest;
    assert s[0] == '%' && s[1] == hi && s[2] == lo && s[3..] == rest;
  }

  /** A pair with a semicolon, or one that cannot be unescaped, is passed over. */
  lemma BadPairIsSkipped(p: string, rest: seq<string>, key: string)
    requires !Without(p, ';') || Unescape(p[..Index(p, '=')], true) == None
    ensures Get([p] + rest, key) == Get(rest, key)
  {
    assert ([p] + rest)[1..] == rest;
  }
}
