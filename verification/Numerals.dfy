/** Integers of 64 bits, and decimal and hexadecimal numerals as text that can be read back. */
module Numerals {
  import opened Wrappers

  type byte = b: int | 0 <= b < 256

  /** One second in nanoseconds. */
  const SECOND: int := 1_000_000_000

  const TWO_63: int := 0x8000_0000_0000_0000
  const TWO_64: int := 0x1_0000_0000_0000_0000

  /** The value of an int64 expression whose exact value is x. */
  function Wrap64(x: int): int {
    (x + TWO_63) % TWO_64 - TWO_63
  }

  /** The same 64 bits as an unsigned number. */
  function Bits64(x: int): nat {
    x % TWO_64
  }

  lemma WrapOfBits(x: int)
    ensures Wrap64(x) == if Bits64(x) < TWO_63 then Bits64(x) else Bits64(x) - TWO_64
  {
    var q, m := x / TWO_64, x % TWO_64;
    assert x + TWO_63 == (m + TWO_63) + q * TWO_64;
    ModShift(m + TWO_63, q);
  }

  lemma ModShift(x: nat, q: int)
    ensures (x + q * TWO_64) % TWO_64 == x % TWO_64
  {
    if q >= 0 {
      ModPeriod(x, q);
    } else {
      ModPeriod(x + q * TWO_64, -q);
      assert x + q * TWO_64 + (-q) * TWO_64 == x;
    }
  }

  lemma ModPeriod(x: int, q: nat)
    ensures (x + q * TWO_64) % TWO_64 == x % TWO_64
  {
    if q > 0 {
      ModPeriod(x, q - 1);
      assert x + q * TWO_64 == (x + (q - 1) * TWO_64) + TWO_64;
    }
  }

  function Digit(d: nat): (c: char)
    requires d < 10
    ensures '0' <= c <= '9'
  {
    '0' + d as char
  }

  function Decimal(n: nat): (s: string)
    ensures |s| > 0 && forall i :: 0 <= i < |s| ==> '0' <= s[i] <= '9'
  {
    if n < 10 then [Digit(n)] else Decimal(n / 10) + [Digit(n % 10)]
  }

  /** strconv.FormatInt in base 10. */
  function Format(x: int): string {
    if x < 0 then "-" + Decimal(-x) else Decimal(x)
  }

  function DecimalValue(s: string): Option<int> {
    if s == "" then None
    else
      var last := s[|s| - 1];
      var front := s[..|s| - 1];
      if !('0' <= last <= '9') then None
      else if front == "" then Some((last - '0') as int)
      else
        match DecimalValue(front)
        case None => None
        case Some(v) => Some(10 * v + (last - '0') as int)
  }

  /** strconv.ParseInt in base 10 for 64 bits: an optional sign, digits, and a value in range. */
  function ParseInt(s: string): Option<int> {
    if s != "" && s[0] == '-' then
      match DecimalValue(s[1..])
      case Some(v) => if v <= TWO_63 then Some(-v) else None
      case None => None
    else
      match DecimalValue(if s != "" && s[0] == '+' then s[1..] else s)
      case Some(v) => if v < TWO_63 then Some(v) else None
      case None => None
  }

  lemma {:induction false} DecimalReadsBack(n: nat)
    ensures DecimalValue(Decimal(n)) == Some(n)
  {
    if n >= 10 {
      var front := Decimal(n / 10);
      assert Decimal(n)[..|front|] == front;
      DecimalReadsBack(n / 10);
    }
  }

  lemma DecimalInjective(a: nat, b: nat)
    requires Decimal(a) == Decimal(b)
    ensures a == b
  {
    DecimalReadsBack(a);
    DecimalReadsBack(b);
  }

  lemma MinusReadsBack(s: string, v: int)
    requires DecimalValue(s) == Some(v) && v <= TWO_63
    ensures ParseInt("-" + s) == Some(-v)
  {
    assert ("-" + s)[1..] == s;
  }

  /** Every 64-bit integer reads back from its own numeral. */
  lemma IntReadsBack(x: int)
    requires -TWO_63 <= x < TWO_63
    ensures ParseInt(Format(x)) == Some(x)
  {
    if x < 0 {
      DecimalReadsBack(-x);
      MinusReadsBack(Decimal(-x), -x);
    } else {
      DecimalReadsBack(x);
    }
  }

  lemma {:induction false} DecimalNotNegative(s: string)
    ensures DecimalValue(s).Some? ==> DecimalValue(s).value >= 0
  {
    if s != "" {
      DecimalNotNegative(s[..|s| - 1]);
    }
  }

  /** Only digits are read. */
  lemma {:induction false} DecimalIffDigits(s: string)
    ensures DecimalValue(s).Some? <==> s != "" && forall i :: 0 <= i < |s| ==> '0' <= s[i] <= '9'
  {
    if s != "" {
      DecimalIffDigits(s[..|s| - 1]);
    }
  }

  /** A number is read from digits after at most one sign, and from nothing else. */
  lemma IntSyntax(s: string)
    ensures ParseInt(s).Some? ==>
              s != "" && forall i :: 0 <= i < |s| ==>
                '0' <= s[i] <= '9' || (i == 0 && |s| > 1 && (s[0] == '-' || s[0] == '+'))
  {
    DecimalIffDigits(s);
    if s != "" {
      DecimalIffDigits(s[1..]);
      assert forall i :: 0 < i < |s| ==> s[i] == s[1..][i - 1];
    }
  }

  lemma IntInRange(s: string)
    ensures ParseInt(s).Some? ==> -TWO_63 <= ParseInt(s).value < TWO_63
  {
    DecimalNotNegative(s);
    if s != "" {
      DecimalNotNegative(s[1..]);
    }
  }

  function HexDigit(d: nat, upper: bool): char
    requires d < 16
  {
    if d < 10 then Digit(d) else (if upper then 'A' else 'a') + (d - 10) as char
  }

  function HexValue(c: char): (v: Option<nat>)
    ensures v.Some? ==> v.value < 16
  {
    if '0' <= c <= '9' then Some((c - '0') as nat)
    else if 'a' <= c <= 'f' then Some(10 + (c - 'a') as nat)
    else if 'A' <= c <= 'F' then Some(10 + (c - 'A') as nat)
    else None
  }

  function HexPair(b: byte, upper: bool): string {
    [HexDigit(b / 16, upper), HexDigit(b % 16, upper)]
  }

  function ByteOfPair(hi: char, lo: char): Option<byte> {
    if HexValue(hi).Some? && HexValue(lo).Some? && HexValue(hi).value < 16 && HexValue(lo).value < 16
    then Some(16 * HexValue(hi).value + HexValue(lo).value) else None
  }

  lemma PairReadsBack(b: byte, upper: bool)
    ensures ByteOfPair(HexPair(b, upper)[0], HexPair(b, upper)[1]) == Some(b)
  {
  }

  function Hex(bytes: seq<byte>): string {
    if bytes == [] then "" else HexPair(bytes[0], false) + Hex(bytes[1..])
  }

  /** hex.DecodeString: an even number of hexadecimal digits of either case. */
  function Unhex(s: string): Option<seq<byte>> {
    if s == "" then Some([])
    else if |s| == 1 || ByteOfPair(s[0], s[1]).None? then None
    else
      match Unhex(s[2..])
      case None => None
      case Some(rest) => Some([ByteOfPair(s[0], s[1]).value] + rest)
  }

  lemma PairUnhexes(b: byte, tail: string, x: seq<byte>)
    requires Unhex(tail) == Some(x)
    ensures Unhex(HexPair(b, false) + tail) == Some([b] + x)
  {
    var pair := HexPair(b, false);
    var t := pair + tail;
    PairReadsBack(b, false);
    assert t[2..] == tail && t[0] == pair[0] && t[1] == pair[1];
  }

  lemma {:induction false} HexReadsBack(bytes: seq<byte>)
    ensures Unhex(Hex(bytes)) == Some(bytes)
  {
    if bytes != [] {
      HexReadsBack(bytes[1..]);
      PairUnhexes(bytes[0], Hex(bytes[1..]), bytes[1..]);
      assert bytes == [bytes[0]] + bytes[1..];
    }
  }

  lemma {:induction false} HexDigits(bytes: seq<byte>)
    ensures forall i :: 0 <= i < |Hex(bytes)| ==> '0' <= Hex(bytes)[i] <= '9' || 'a' <= Hex(bytes)[i] <= 'f'
  {
    if bytes != [] {
      HexDigits(bytes[1..]);
    }
  }

  /** Only pairs of hexadecimal digits are read. */
  lemma {:induction false} UnhexSyntax(s: string)
    ensures Unhex(s).Some? ==> |s| == 2 * |Unhex(s).value|
    ensures Unhex(s).Some? ==> forall i :: 0 <= i < |s| ==> HexValue(s[i]).Some?
  {
    if |s| >= 2 {
      UnhexSyntax(s[2..]);
      assert forall i :: 2 <= i < |s| ==> s[i] == s[2..][i - 2];
    }
  }
}
