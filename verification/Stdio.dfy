/** Integer conversions of printf and the bounded output of vsnprintf. */
module Stdio {
  import opened Common
  import opened Bytes

  datatype Base = Base(radix: nat, digits: seq<Byte>, x: Option<Byte>, group: nat)

  /** The flags, width and precision of one conversion; precision -1 means none was given. */
  datatype Conversion = Conversion(minus: bool, plus: bool, space: bool, pound: bool, zero: bool, grouped: bool,
                                   width: nat, precision: int)

  function Codes(s: string): (r: seq<Byte>)
    requires forall i | 0 <= i < |s| :: s[i] as int < 256
    ensures |r| == |s| && forall i | 0 <= i < |s| :: r[i] == s[i] as int
  {
    seq(|s|, i requires 0 <= i < |s| => C(s[i]))
  }

  function BaseD(): Base { Base(10, Codes("0123456789"), None, 3) }
  function BaseO(): Base { Base(8, Codes("01234567"), None, 3) }
  function BaseX(): Base { Base(16, Codes("0123456789abcdef"), Some(C('x')), 4) }
  function BaseXX(): Base { Base(16, Codes("0123456789ABCDEF"), Some(C('X')), 4) }

  /** The number a digit character stands for. */
  function DigitValue(b: Byte): int {
    if C('0') <= b <= C('9') then b - C('0')
    else if C('a') <= b <= C('f') then b - C('a') + 10
    else if C('A') <= b <= C('F') then b - C('A') + 10
    else 0
  }

  ghost predicate GoodBase(b: Base) {
    && 8 <= b.radix == |b.digits| && b.group >= 1
    && forall d | 0 <= d < b.radix :: DigitValue(b.digits[d]) == d && b.digits[d] != C(',')
  }

  /** The four bases in use qualify. */
  lemma BasesGood()
    ensures GoodBase(BaseD()) && GoodBase(BaseO()) && GoodBase(BaseX()) && GoodBase(BaseXX())
  {
  }

  // ---------------------------------------------------------------- the rendering of an integer

  function Comma(b: Base, grouped: bool, k: nat): (s: seq<Byte>)
    requires b.group >= 1
    ensures s == [] || s == [C(',')]
  {
    if grouped && k > 0 && k % b.group == 0 then [C(',')] else []
  }

  /** The digits of v, most significant first; k digits to the right of these are already out. */
  ghost function Digits(v: nat, b: Base, grouped: bool, k: nat): seq<Byte>
    requires GoodBase(b)
  {
    if v == 0 then []
    else
      Shrinks(v, b.radix);
      Digits(v / b.radix, b, grouped, k + 1) + [b.digits[v % b.radix]] + Comma(b, grouped, k)
  }

  lemma Shrinks(v: nat, r: nat)
    requires v > 0 && r >= 8
    ensures 0 <= v / r && 8 * (v / r) <= v
  {
    var q := v / r;
    assert q * r <= v < q * r + r;
    assert q < 0 ==> q * r + r <= 0;
    assert q >= 0 ==> q * 8 <= q * r;
  }

  const BUFFER: nat := 64

  /** Zeros up to the precision, as far as the buffer allows. */
  function Precise(digits: seq<Byte>, precision: int): seq<Byte> {
    var wanted := if precision < 0 then 1 else precision;
    var len := if wanted < BUFFER - 1 then wanted else BUFFER - 1;
    if |digits| < len then Repeat(C('0'), len - |digits|) + digits else digits
  }

  function Lead(s: seq<Byte>, b: Base, c: Conversion): seq<Byte> {
    if c.pound && b.radix == 8 && (s == [] || s[0] != C('0')) then [C('0')] + s else s
  }

  ghost function Body(v: nat, b: Base, c: Conversion): seq<Byte>
    requires GoodBase(b)
  {
    Lead(Precise(Digits(v, b, c.grouped, 0), c.precision), b, c)
  }

  function Sign(signed: bool, negative: bool, c: Conversion): (s: seq<Byte>)
    ensures |s| <= 1
  {
    if !signed then []
    else if c.plus then [if negative then C('-') else C('+')]
    else if c.space then [if negative then C('-') else C(' ')]
    else if negative then [C('-')] else []
  }

  function Prefix(v: nat, b: Base, c: Conversion): (s: seq<Byte>)
    ensures |s| == 0 || |s| == 2
  {
    if c.pound && v > 0 && b.x.Some? then [C('0'), b.x.value] else []
  }

  function Max0(n: int): nat {
    if n < 0 then 0 else n
  }

  /** Everything between the padding. */
  ghost function Core(v: nat, signed: bool, negative: bool, b: Base, c: Conversion): seq<Byte>
    requires GoodBase(b)
  {
    Sign(signed, negative, c) + Prefix(v, b, c) + Body(v, b, c)
  }

  ghost function Rendering(v: nat, signed: bool, negative: bool, b: Base, c: Conversion): seq<Byte>
    requires GoodBase(b)
  {
    var pad := Max0(c.width - |Core(v, signed, negative, b, c)|);
    (if !c.minus && !c.zero then Repeat(C(' '), pad) else [])
    + Sign(signed, negative, c) + Prefix(v, b, c)
    + (if c.zero then Repeat(C('0'), pad) else [])
    + Body(v, b, c)
    + (if c.minus then Repeat(C(' '), pad) else [])
  }

  ghost function Pow8(n: nat): nat {
    if n == 0 then 1 else 8 * Pow8(n - 1)
  }

  lemma Pow8Is(n: nat)
    requires n == 22
    ensures Pow8(n) == 0x4_0000_0000_0000_0000
  {
    assert Pow8(2) == 64;
    assert Pow8(5) == 512 * Pow8(2);
    assert Pow8(8) == 512 * Pow8(5);
    assert Pow8(11) == 512 * Pow8(8);
    assert Pow8(14) == 512 * Pow8(11);
    assert Pow8(17) == 512 * Pow8(14);
    assert Pow8(20) == 512 * Pow8(17);
  }

  /** format_integer: digits go into a 64-byte buffer in reverse and come out in order.  No value, base,
      flag or precision makes it write outside the buffer. */
  method FormatInteger(v: nat, signed: bool, negative: bool, b: Base, c: Conversion) returns (out: seq<Byte>)
    requires v < 0x1_0000_0000_0000_0000 && GoodBase(b)
    ensures out == Rendering(v, signed, negative, b, c)
  {
    var sign := Sign(signed, negative, c);
    var x := Prefix(v, b, c);
    var buf := new Byte[BUFFER];
    var cp: nat := FillDigits(buf, v, b, c.grouped);
    cp := FillZeros(buf, cp, b, c);
    var padCnt := Max0(c.width - cp - |x| - |sign|);
    Assembled(v, signed, negative, b, c, cp, padCnt);
    out := if !c.minus && !c.zero then Repeat(C(' '), padCnt) else [];
    out := out + sign + x;
    out := out + if c.zero then Repeat(C('0'), padCnt) else [];
    out := EmitReversed(buf, cp, out);
    out := out + if c.minus then Repeat(C(' '), padCnt) else [];
  }

  lemma Assembled(v: nat, signed: bool, negative: bool, b: Base, c: Conversion, n: nat, pad: nat)
    requires GoodBase(b) && n == |Body(v, b, c)|
    requires pad == Max0(c.width - n - |Prefix(v, b, c)| - |Sign(signed, negative, c)|)
    ensures Rendering(v, signed, negative, b, c) ==
            (if !c.minus && !c.zero then Repeat(C(' '), pad) else []) + Sign(signed, negative, c) + Prefix(v, b, c)
            + (if c.zero then Repeat(C('0'), pad) else []) + Body(v, b, c) + (if c.minus then Repeat(C(' '), pad) else [])
  {
  }

  method EmitReversed(buf: array<Byte>, end: nat, out0: seq<Byte>) returns (out: seq<Byte>)
    requires end <= buf.Length
    ensures out == out0 + Reversed(buf[..end])
  {
    var cp := end;
    out := out0;
    while cp > 0
      invariant 0 <= cp <= end
      invariant out + Reversed(buf[..cp]) == out0 + Reversed(buf[..end])
    {
      cp := cp - 1;
      assert buf[..cp + 1] == buf[..cp] + [buf[cp]];
      ReversedPush(buf[..cp], buf[cp]);
      assert out + ([buf[cp]] + Reversed(buf[..cp])) == out + [buf[cp]] + Reversed(buf[..cp]);
      out := out + [buf[cp]];
    }
  }

  /** *cp++ = ch. */
  method PushByte(buf: array<Byte>, cp: nat, ch: Byte) returns (next: nat)
    requires cp < buf.Length
    modifies buf
    ensures next == cp + 1 && buf[..next] == old(buf[..cp]) + [ch]
  {
    buf[cp] := ch;
    next := cp + 1;
  }

  method FillDigits(buf: array<Byte>, v: nat, b: Base, grouped: bool) returns (cp: nat)
    requires buf.Length == BUFFER && v < 0x1_0000_0000_0000_0000 && GoodBase(b)
    modifies buf
    ensures cp <= 44 && Reversed(buf[..cp]) == Digits(v, b, grouped, 0)
  {
    cp := 0;
    var digitCnt: nat, value: nat := 0, v;
    Pow8Is(22);
    DigitsShort(v, b, grouped, 0, 22);
    assert Digits(v, b, grouped, 0) == Digits(value, b, grouped, 0) + Reversed(buf[..0]);
    while value > 0
      invariant cp <= BUFFER && Digits(v, b, grouped, 0) == Digits(value, b, grouped, digitCnt) + Reversed(buf[..cp])
      decreases value
    {
      Shrinks(value, b.radix);
      DigitStep(value, b, grouped, digitCnt, buf[..cp]);
      cp := PushDigit(buf, cp, value, b, grouped, digitCnt);
      value := value / b.radix;
      digitCnt := digitCnt + 1;
    }
  }

  method PushDigit(buf: array<Byte>, cp: nat, value: nat, b: Base, grouped: bool, digitCnt: nat) returns (next: nat)
    requires value > 0 && GoodBase(b) && cp + |Comma(b, grouped, digitCnt)| < buf.Length
    modifies buf
    ensures next == cp + |Comma(b, grouped, digitCnt)| + 1
    ensures buf[..next] == old(buf[..cp]) + Comma(b, grouped, digitCnt) + [b.digits[value % b.radix]]
  {
    next := cp;
    if grouped && digitCnt > 0 && digitCnt % b.group == 0 {
      next := PushByte(buf, next, C(','));
    }
    assert buf[..next] == old(buf[..cp]) + Comma(b, grouped, digitCnt);
    next := PushByte(buf, next, b.digits[value % b.radix]);
  }

  lemma {:induction false} DigitsShort(v: nat, b: Base, grouped: bool, k: nat, n: nat)
    requires GoodBase(b) && v < Pow8(n)
    ensures |Digits(v, b, grouped, k)| <= 2 * n
    decreases n
  {
    if v > 0 {
      Shrinks(v, b.radix);
      assert n > 0;
      DigitsShort(v / b.radix, b, grouped, k + 1, n - 1);
    }
  }

  lemma DigitStep(v: nat, b: Base, grouped: bool, k: nat, before: seq<Byte>)
    requires v > 0 && GoodBase(b) && v / b.radix >= 0
    ensures |Digits(v, b, grouped, k)| >= 1 + |Comma(b, grouped, k)|
    ensures Digits(v, b, grouped, k) + Reversed(before)
            == Digits(v / b.radix, b, grouped, k + 1) + Reversed(before + Comma(b, grouped, k) + [b.digits[v % b.radix]])
  {
    var high, d, comma := Digits(v / b.radix, b, grouped, k + 1), b.digits[v % b.radix], Comma(b, grouped, k);
    ReversedDigit(before, comma, d);
    Reassociate(high, d, comma, Reversed(before));
  }

  lemma ReversedDigit(before: seq<Byte>, comma: seq<Byte>, d: Byte)
    requires |comma| <= 1
    ensures Reversed(before + comma + [d]) == [d] + comma + Reversed(before)
  {
    ReversedPush(before + comma, d);
    if comma == [] {
      assert before + comma == before;
    } else {
      assert comma == [comma[0]];
      ReversedPush(before, comma[0]);
    }
  }

  lemma Reassociate(high: seq<Byte>, d: Byte, comma: seq<Byte>, low: seq<Byte>)
    ensures high + [d] + comma + low == high + ([d] + comma + low)
  {
  }

  method FillZeros(buf: array<Byte>, cp0: nat, b: Base, c: Conversion) returns (cp: nat)
    requires buf.Length == BUFFER && cp0 <= 44
    modifies buf
    ensures cp <= BUFFER && Reversed(buf[..cp]) == Lead(Precise(old(Reversed(buf[..cp0])), c.precision), b, c)
  {
    ghost var digits := Reversed(buf[..cp0]);
    cp := FillPrecision(buf, cp0, c.precision);
    ghost var padded := Reversed(buf[..cp]);
    assert cp > 0 ==> padded[0] == buf[cp - 1];
    if c.pound && b.radix == 8 && (cp == 0 || buf[cp - 1] != C('0')) {
      ReversedPush(buf[..cp], C('0'));
      cp := PushByte(buf, cp, C('0'));
    }
  }

  method FillPrecision(buf: array<Byte>, cp0: nat, p: int) returns (cp: nat)
    requires buf.Length == BUFFER && cp0 <= 44
    modifies buf
    ensures cp <= BUFFER - 1 && Reversed(buf[..cp]) == Precise(old(Reversed(buf[..cp0])), p)
  {
    var precision := if p < 0 then 1 else p;
    cp := cp0;
    ghost var digits := Reversed(buf[..cp0]);
    assert Repeat(C('0'), 0) + digits == digits;
    while cp < precision && cp < BUFFER - 1
      invariant cp0 <= cp <= BUFFER - 1 && (cp > cp0 ==> cp <= precision)
      invariant Reversed(buf[..cp]) == Repeat(C('0'), cp - cp0) + digits
    {
      ReversedPush(buf[..cp], C('0'));
      RepeatPush(C('0'), cp - cp0, digits);
      cp := PushByte(buf, cp, C('0'));
    }
    PreciseReached(digits, p, cp);
  }

  /** Where the filling stops. */
  lemma PreciseReached(digits: seq<Byte>, p: int, cp: nat)
    requires |digits| <= cp <= BUFFER - 1
    requires var wanted := if p < 0 then 1 else p;
             (cp >= wanted || cp >= BUFFER - 1) && (cp > |digits| ==> cp <= wanted)
    ensures Repeat(C('0'), cp - |digits|) + digits == Precise(digits, p)
  {
    if cp == |digits| {
      assert Repeat(C('0'), 0) + digits == digits;
    }
  }

  lemma RepeatPush(x: Byte, n: nat, s: seq<Byte>)
    ensures [x] + (Repeat(x, n) + s) == Repeat(x, n + 1) + s
  {
  }

  // ---------------------------------------------------------------- what a rendering means

  /** The number written in base `radix`, skipping group separators. */
  ghost function Numeral(s: seq<Byte>, radix: nat): int {
    if s == [] then 0
    else
      var front, last := s[..|s| - 1], s[|s| - 1];
      if last == C(',') then Numeral(front, radix) else Numeral(front, radix) * radix + DigitValue(last)
  }

  lemma NumeralPush(s: seq<Byte>, x: Byte, radix: nat)
    ensures Numeral(s + [x], radix) == if x == C(',') then Numeral(s, radix) else Numeral(s, radix) * radix + DigitValue(x)
  {
    assert (s + [x])[..|s|] == s;
  }

  lemma {:induction false} NumeralDigits(v: nat, b: Base, grouped: bool, k: nat)
    requires GoodBase(b)
    ensures Numeral(Digits(v, b, grouped, k), b.radix) == v
    decreases v
  {
    if v > 0 {
      Shrinks(v, b.radix);
      NumeralDigits(v / b.radix, b, grouped, k + 1);
      NumeralNext(Digits(v / b.radix, b, grouped, k + 1), b.digits[v % b.radix], Comma(b, grouped, k), b.radix);
      Quotient(v, b.radix);
    }
  }

  lemma NumeralNext(high: seq<Byte>, d: Byte, comma: seq<Byte>, radix: nat)
    requires d != C(',') && (comma == [] || comma == [C(',')])
    ensures Numeral(high + [d] + comma, radix) == Numeral(high, radix) * radix + DigitValue(d)
  {
    NumeralPush(high, d, radix);
    if comma == [] {
      assert high + [d] + comma == high + [d];
    } else {
      NumeralPush(high + [d], C(','), radix);
    }
  }

  lemma Quotient(v: nat, r: nat)
    requires r > 0
    ensures v / r * r + v % r == v
  {
  }

  lemma {:induction false} NumeralZeros(n: nat, s: seq<Byte>, radix: nat)
    ensures Numeral(Repeat(C('0'), n) + s, radix) == Numeral(s, radix)
    decreases |s|, n
  {
    var z := Repeat(C('0'), n);
    if s != [] {
      NumeralZeros(n, s[..|s| - 1], radix);
      assert (z + s)[..n + |s| - 1] == z + s[..|s| - 1];
    } else if n > 0 {
      NumeralZeros(n - 1, s, radix);
      assert (z + s)[..n - 1] == Repeat(C('0'), n - 1) + s;
    }
  }

  /** Whatever the flags and the precision, the digits written denote the value. */
  lemma BodyDenotesValue(v: nat, b: Base, c: Conversion)
    requires GoodBase(b)
    ensures Numeral(Body(v, b, c), b.radix) == v
  {
    NumeralDigits(v, b, c.grouped, 0);
    var digits := Digits(v, b, c.grouped, 0);
    PreciseValue(digits, c.precision, b.radix);
    LeadValue(Precise(digits, c.precision), b, c, b.radix);
  }

  lemma PreciseValue(digits: seq<Byte>, precision: int, radix: nat)
    ensures Numeral(Precise(digits, precision), radix) == Numeral(digits, radix)
  {
    var padded := Precise(digits, precision);
    if |digits| < |padded| {
      NumeralZeros(|padded| - |digits|, digits, radix);
    }
  }

  lemma LeadValue(s: seq<Byte>, b: Base, c: Conversion, radix: nat)
    ensures Numeral(Lead(s, b, c), radix) == Numeral(s, radix)
  {
    NumeralZeros(1, s, radix);
    assert Repeat(C('0'), 1) == [C('0')];
  }

  // ---------------------------------------------------------------- precision

  /** The digits in a text: everything but group separators. */
  ghost function DigitsIn(s: seq<Byte>): nat {
    if s == [] then 0 else DigitsIn(s[..|s| - 1]) + if s[|s| - 1] == C(',') then 0 else 1
  }

  lemma {:induction false} DigitsInAppend(s: seq<Byte>, t: seq<Byte>)
    ensures DigitsIn(s + t) == DigitsIn(s) + DigitsIn(t)
    decreases |t|
  {
    if t == [] {
      assert s + t == s;
    } else {
      DigitsInAppend(s, t[..|t| - 1]);
      assert (s + t)[..|s + t| - 1] == s + t[..|t| - 1];
    }
  }

  lemma {:induction false} ZerosAllDigits(n: nat)
    ensures DigitsIn(Repeat(C('0'), n)) == n
  {
    if n > 0 {
      ZerosAllDigits(n - 1);
      assert Repeat(C('0'), n)[..n - 1] == Repeat(C('0'), n - 1);
    }
  }

  /** How many digits v has. */
  ghost function Length(v: nat, radix: nat): nat
    requires radix >= 8
  {
    if v == 0 then 0
    else
      Shrinks(v, radix);
      1 + Length(v / radix, radix)
  }

  /** How many separators come with n digits when k are already out. */
  ghost function CommaCount(n: nat, k: nat, group: nat): nat
    requires group >= 1
  {
    if n == 0 then 0 else CommaCount(n - 1, k + 1, group) + if k > 0 && k % group == 0 then 1 else 0
  }

  /** A first separator appears with one digit more than a group. */
  lemma NoCommaWithin(n: nat, group: nat)
    requires group >= 1
    ensures CommaCount(n, 0, group) == 0 <==> n <= group
  {
    if n <= group {
      NoneBefore(n, 0, group);
    } else {
      SomeAt(n, 0, group);
    }
  }

  lemma {:induction false} NoneBefore(n: nat, k: nat, group: nat)
    requires group >= 1 && k + n <= group
    ensures CommaCount(n, k, group) == 0
    decreases n
  {
    if n > 0 {
      NoneBefore(n - 1, k + 1, group);
      SmallRemainder(k, group);
    }
  }

  lemma SmallRemainder(k: nat, group: nat)
    requires k < group
    ensures k % group == k
  {
  }

  lemma {:induction false} SomeAt(n: nat, k: nat, group: nat)
    requires group >= 1 && k <= group < k + n
    ensures CommaCount(n, k, group) > 0
    decreases n
  {
    if k < group {
      SomeAt(n - 1, k + 1, group);
    }
  }

  /** The digits of v: their number, the separators among them, and no zero in front. */
  lemma {:induction false} DigitsShape(v: nat, b: Base, grouped: bool, k: nat)
    requires GoodBase(b)
    ensures AsUnit(Shaped(Digits(v, b, grouped, k), Length(v, b.radix), grouped, k, b.group)) && (v > 0 <==> Length(v, b.radix) > 0)
    decreases v
  {
    if v > 0 {
      Shrinks(v, b.radix);
      DigitsShape(v / b.radix, b, grouped, k + 1);
      if v / b.radix == 0 {
        LeadingDigit(v, b);
      }
      ShapeStep(Digits(v / b.radix, b, grouped, k + 1), b.digits[v % b.radix], Comma(b, grouped, k), Length(v / b.radix, b.radix),
                grouped, k, b.group);
    }
  }

  lemma ShapeStep(high: seq<Byte>, d: Byte, comma: seq<Byte>, n: nat, grouped: bool, k: nat, group: nat)
    requires group >= 1 && d != C(',') && comma == if grouped && k > 0 && k % group == 0 then [C(',')] else []
    requires Shaped(high, n, grouped, k + 1, group) && (n == 0 ==> d != C('0'))
    ensures AsUnit(Shaped(high + [d] + comma, n + 1, grouped, k, group))
  {
    NextDigit(high, d, comma);
  }

  /** n digits, the first of them not zero, and their separators. */
  ghost predicate Shaped(d: seq<Byte>, n: nat, grouped: bool, k: nat, group: nat)
    requires group >= 1
  {
    && DigitsIn(d) == n && |d| == n + (if grouped then CommaCount(n, k, group) else 0)
    && (n > 0 ==> d != [] && d[0] != C('0'))
  }

  lemma NextDigit(high: seq<Byte>, d: Byte, comma: seq<Byte>)
    requires d != C(',') && (comma == [] || comma == [C(',')])
    ensures var s := high + [d] + comma;
            DigitsIn(s) == DigitsIn(high) + 1 && |s| == |high| + 1 + |comma| && s[0] == if high == [] then d else high[0]
  {
    DigitsInAppend(high, [d]);
    DigitsInAppend(high + [d], comma);
    OneDigit(d);
    assert [C(',')][..0] == [];
  }

  lemma OneDigit(d: Byte)
    requires d != C(',')
    ensures DigitsIn([d]) == 1
  {
    assert [d][..0] == [];
  }

  lemma LeadingDigit(v: nat, b: Base)
    requires GoodBase(b) && v > 0 && v / b.radix == 0
    ensures b.digits[v % b.radix] != C('0')
  {
    Quotient(v, b.radix);
    assert v % b.radix == v;
    assert DigitValue(b.digits[v]) == v;
  }

  /** A precision asks for that many digits.  It is honoured if and only if the number has them anyway, or
      zeros could be put in front, which takes room in the buffer and counts separators as digits, or the
      extra zero of an octal conversion makes up the only one missing. */
  lemma PrecisionHonoured(v: nat, b: Base, c: Conversion)
    requires GoodBase(b) && v < 0x1_0000_0000_0000_0000
    ensures var n := Length(v, b.radix);
            DigitsIn(Body(v, b, c)) >= c.precision <==>
            || c.precision <= n
            || (c.precision <= BUFFER - 1 && (!c.grouped || n <= b.group))
            || (c.pound && b.radix == 8 && c.precision == n + 1)
    ensures c.precision == 0 && v == 0 && !c.pound ==> Body(v, b, c) == []
    ensures c.precision != 0 || v > 0 ==> Body(v, b, c) != []
  {
    var d, n := Digits(v, b, c.grouped, 0), Length(v, b.radix);
    DigitsShape(v, b, c.grouped, 0);
    DigitsBound(v, b, c.grouped);
    NoCommaWithin(n, b.group);
    BodyExact(v, b, c);
    ZerosCounted(Zeros(|d|, b, c), d);
    Honoured(n, |d| - n, Zeros(|d|, b, c), b.radix == 8 && c.pound, c.precision, c.grouped && n > b.group);
  }

  lemma DigitsBound(v: nat, b: Base, grouped: bool)
    requires GoodBase(b) && v < 0x1_0000_0000_0000_0000
    ensures |Digits(v, b, grouped, 0)| <= 44
  {
    Pow8Is(22);
    DigitsShort(v, b, grouped, 0, 22);
  }

  lemma ZerosCounted(z: nat, d: seq<Byte>)
    ensures DigitsIn(Repeat(C('0'), z) + d) == z + DigitsIn(d)
  {
    DigitsInAppend(Repeat(C('0'), z), d);
    ZerosAllDigits(z);
  }

  /** n digits and k separators with z zeros in front. */
  lemma Honoured(n: nat, k: nat, z: nat, extra: bool, p: int, separated: bool)
    requires n + k <= 44 && (k > 0 <==> separated)
    requires var wanted := if p < 0 then 1 else if p < 63 then p else 63;
             z == if n + k < wanted then wanted - (n + k) else if extra then 1 else 0
    ensures z + n >= p <==> p <= n || (p <= 63 && !separated) || (extra && p == n + 1)
  {
  }

  /** How many zeros stand in front of the number's own digits: those that the precision asks for, as far as the
      buffer goes, or the one that `#o` asks for if there is none yet. */
  ghost function Zeros(own: nat, b: Base, c: Conversion): nat {
    var wanted := if c.precision < 0 then 1 else if c.precision < 63 then c.precision else 63;
    if own < wanted then wanted - own else if c.pound && b.radix == 8 then 1 else 0
  }

  /** The digits of a conversion are exactly so many zeros and then the number without a zero in front. */
  lemma BodyExact(v: nat, b: Base, c: Conversion)
    requires GoodBase(b)
    ensures var d := Digits(v, b, c.grouped, 0);
            && Body(v, b, c) == Repeat(C('0'), Zeros(|d|, b, c)) + d
            && (v == 0 ==> d == []) && (v > 0 ==> d != [] && d[0] != C('0'))
  {
    var d := Digits(v, b, c.grouped, 0);
    DigitsShape(v, b, c.grouped, 0);
    var p, z := Precise(d, c.precision), Zeros(|d|, b, c);
    if |p| > |d| {
      assert p[0] == C('0');
    } else if z == 1 {
      assert [C('0')] + d == Repeat(C('0'), 1) + d;
    } else {
      assert Repeat(C('0'), 0) + d == d;
    }
  }

  /** 12345 with separators and precision 6 has only five digits. */
  lemma GroupedPrecisionFails(c: Conversion)
    requires c.grouped && c.precision == 6
    ensures GoodBase(BaseD()) && DigitsIn(Body(12345, BaseD(), c)) < c.precision
  {
    BasesGood();
    PrecisionHonoured(12345, BaseD(), c);
    assert Length(123, 10) == 3;
    assert Length(12345, 10) == 5;
  }

  /** A field is exactly as wide as asked, or as wide as its contents need.  A `*` width that is negative
      leaves both the minus and the zero flag set, and then the padding is written twice. */
  lemma FieldWidth(v: nat, signed: bool, negative: bool, b: Base, c: Conversion)
    requires GoodBase(b)
    ensures var n := |Core(v, signed, negative, b, c)|;
            |Rendering(v, signed, negative, b, c)| == (if n < c.width then c.width else n)
            <==> !(c.minus && c.zero) || c.width <= n
  {
  }

  // ---------------------------------------------------------------- a conversion, position by position

  /** The conversions of C: radix, the digits beyond nine in their case, the marker and the group. */
  lemma BaseTable()
    ensures BaseD().radix == 10 && BaseO().radix == 8 && BaseX().radix == BaseXX().radix == 16
    ensures BaseD().x == BaseO().x == None && BaseX().x == Some('x' as int) && BaseXX().x == Some('X' as int)
    ensures BaseD().group == BaseO().group == 3 && BaseX().group == BaseXX().group == 4
    ensures forall d | 0 <= d < 10 :: BaseD().digits[d] == BaseX().digits[d] == BaseXX().digits[d] == '0' as int + d
    ensures forall d | 0 <= d < 8 :: BaseO().digits[d] == '0' as int + d
    ensures forall d | 10 <= d < 16 :: BaseX().digits[d] == 'a' as int + (d - 10) && BaseXX().digits[d] == 'A' as int + (d - 10)
  {
  }

  /** The character in front of a signed number, if there is one. */
  ghost function SignWanted(signed: bool, negative: bool, c: Conversion): Option<char> {
    if !signed then None
    else if negative then Some('-')
    else if c.plus then Some('+')
    else if c.space then Some(' ')
    else None
  }

  /** Bytes i up to j are all the character ch. */
  ghost predicate Filled(s: seq<Byte>, i: nat, j: nat, ch: char) {
    i <= j <= |s| && forall k | i <= k < j :: s[k] == ch as int
  }

  /** Where the parts of a conversion begin: the sign, the marker, the zeros, the digits, the end of them. */
  datatype Places = Places(sign: nat, mark: nat, zeros: nat, digits: nat, end: nat)

  ghost predicate SignPlaced(s: seq<Byte>, signed: bool, negative: bool, c: Conversion, p: Places) {
    var wanted := SignWanted(signed, negative, c);
    p.mark == p.sign + (if wanted.Some? then 1 else 0) <= |s| && (wanted.Some? ==> s[p.sign] == wanted.value as int)
  }

  /** "0x" or "0X" stands in front of a nonzero number, if it is asked for and the base has it. */
  ghost predicate MarkPlaced(s: seq<Byte>, v: nat, b: Base, c: Conversion, p: Places) {
    if c.pound && v > 0 && b.x.Some? then
      p.zeros == p.mark + 2 <= |s| && s[p.mark] == '0' as int && s[p.mark + 1] == b.x.value
    else p.zeros == p.mark
  }

  /** The digits denote v in their base. */
  ghost predicate DigitsPlaced(s: seq<Byte>, v: nat, b: Base, c: Conversion, p: Places) {
    && p.digits <= p.end <= |s| && Numeral(s[p.digits..p.end], b.radix) == v
    && (forall k | p.digits <= k < p.end :: s[k] in b.digits || (c.grouped && s[k] == ',' as int))
  }

  /** Padding fills the width: blanks in front, unless the minus flag puts them behind or the zero flag asks
      for zeros before the digits. */
  ghost predicate Padding(s: seq<Byte>, c: Conversion, p: Places) {
    && Filled(s, 0, p.sign, ' ') && Filled(s, p.zeros, p.digits, '0') && Filled(s, p.end, |s|, ' ')
    && var pad := Max0(c.width - (p.zeros - p.sign) - (p.end - p.digits));
       && p.sign == (if c.minus || c.zero then 0 else pad)
       && p.digits - p.zeros == (if c.zero then pad else 0)
       && |s| - p.end == (if c.minus then pad else 0)
  }

  ghost predicate LaidOut(s: seq<Byte>, v: nat, signed: bool, negative: bool, b: Base, c: Conversion, p: Places) {
    SignPlaced(s, signed, negative, c, p) && MarkPlaced(s, v, b, c, p) && DigitsPlaced(s, v, b, c, p) && Padding(s, c, p)
  }

  /** Every conversion in every base is laid out so. */
  lemma RenderingLaidOut(v: nat, signed: bool, negative: bool, b: Base, c: Conversion) returns (p: Places)
    requires GoodBase(b) && C('0') in b.digits
    ensures LaidOut(Rendering(v, signed, negative, b, c), v, signed, negative, b, c, p)
  {
    var pad := Max0(c.width - |Core(v, signed, negative, b, c)|);
    var sg, pf, body := Sign(signed, negative, c), Prefix(v, b, c), Body(v, b, c);
    var left := if !c.minus && !c.zero then Repeat(C(' '), pad) else [];
    var mid := if c.zero then Repeat(C('0'), pad) else [];
    var right := if c.minus then Repeat(C(' '), pad) else [];
    p := PlacesOf(left, sg, pf, mid, body);
    PartsLaidOut(left, sg, pf, mid, body, right, v, signed, negative, b, c, pad, left + sg + pf + mid + body + right, p);
  }

  lemma PartsLaidOut(left: seq<Byte>, sg: seq<Byte>, pf: seq<Byte>, mid: seq<Byte>, body: seq<Byte>, right: seq<Byte>,
                     v: nat, signed: bool, negative: bool, b: Base, c: Conversion, pad: nat, s: seq<Byte>, p: Places)
    requires GoodBase(b) && C('0') in b.digits && p == PlacesOf(left, sg, pf, mid, body)
    requires sg == Sign(signed, negative, c) && pf == Prefix(v, b, c) && body == Body(v, b, c)
    requires pad == Max0(c.width - (|sg| + |pf| + |body|)) && s == left + sg + pf + mid + body + right
    requires |left| == (if c.minus || c.zero then 0 else pad) && (forall k | 0 <= k < |left| :: left[k] == C(' '))
    requires |mid| == (if c.zero then pad else 0) && (forall k | 0 <= k < |mid| :: mid[k] == C('0'))
    requires |right| == (if c.minus then pad else 0) && (forall k | 0 <= k < |right| :: right[k] == C(' '))
    ensures AsUnit(LaidOut(s, v, signed, negative, b, c, p))
  {
    SixParts(left, sg, pf, mid, body, right);
    BodyDenotesValue(v, b, c);
    BodyOfDigits(v, b, c);
    BodyPlaced(s, v, b, c, p, body);
    SignIsPlaced(s, signed, negative, c, p);
    MarkIsPlaced(s, v, b, c, p);
    PaddingIs(s, c, p, pad);
  }

  lemma SignIsPlaced(s: seq<Byte>, signed: bool, negative: bool, c: Conversion, p: Places)
    requires var sg := Sign(signed, negative, c);
             p.mark == p.sign + |sg| <= |s| && forall k | p.sign <= k < p.mark :: s[k] == sg[k - p.sign]
    ensures AsUnit(SignPlaced(s, signed, negative, c, p))
  {
  }

  lemma MarkIsPlaced(s: seq<Byte>, v: nat, b: Base, c: Conversion, p: Places)
    requires var pf := Prefix(v, b, c);
             p.zeros == p.mark + |pf| <= |s| && forall k | p.mark <= k < p.zeros :: s[k] == pf[k - p.mark]
    ensures AsUnit(MarkPlaced(s, v, b, c, p))
  {
  }

  lemma PaddingIs(s: seq<Byte>, c: Conversion, p: Places, pad: nat)
    requires p.sign <= p.zeros <= p.digits <= p.end <= |s| && pad == Max0(c.width - (p.zeros - p.sign) - (p.end - p.digits))
    requires p.sign == (if c.minus || c.zero then 0 else pad) && p.digits - p.zeros == (if c.zero then pad else 0)
    requires |s| - p.end == (if c.minus then pad else 0)
    requires forall k | 0 <= k < p.sign :: s[k] == C(' ')
    requires forall k | p.zeros <= k < p.digits :: s[k] == C('0')
    requires forall k | p.end <= k < |s| :: s[k] == C(' ')
    ensures AsUnit(Padding(s, c, p))
  {
  }

  ghost function PlacesOf(a: seq<Byte>, b: seq<Byte>, c: seq<Byte>, d: seq<Byte>, e: seq<Byte>): Places {
    Places(|a|, |a| + |b|, |a| + |b| + |c|, |a| + |b| + |c| + |d|, |a| + |b| + |c| + |d| + |e|)
  }

  lemma BodyPlaced(s: seq<Byte>, v: nat, b: Base, c: Conversion, p: Places, body: seq<Byte>)
    requires p.digits <= p.end <= |s| && s[p.digits..p.end] == body && Numeral(body, b.radix) == v
    requires forall x | x in body :: x in b.digits || (c.grouped && x == ',' as int)
    ensures AsUnit(DigitsPlaced(s, v, b, c, p))
  {
    forall k | p.digits <= k < p.end ensures s[k] in b.digits || (c.grouped && s[k] == ',' as int) {
      assert s[k] == body[k - p.digits];
      assert body[k - p.digits] in body;
    }
  }

  lemma SixParts(a: seq<Byte>, b: seq<Byte>, c: seq<Byte>, d: seq<Byte>, e: seq<Byte>, f: seq<Byte>)
    ensures var s, p := a + b + c + d + e + f, PlacesOf(a, b, c, d, e);
            && |s| == p.end + |f|
            && (forall k | 0 <= k < p.sign :: s[k] == a[k]) && (forall k | p.sign <= k < p.mark :: s[k] == b[k - p.sign])
            && (forall k | p.mark <= k < p.zeros :: s[k] == c[k - p.mark])
            && (forall k | p.zeros <= k < p.digits :: s[k] == d[k - p.zeros])
            && s[p.digits..p.end] == e && (forall k | p.end <= k < |s| :: s[k] == f[k - p.end])
  {
  }

  lemma BodyOfDigits(v: nat, b: Base, c: Conversion)
    requires GoodBase(b) && C('0') in b.digits
    ensures forall x | x in Body(v, b, c) :: x in b.digits || (c.grouped && x == ',' as int)
  {
    DigitsOrCommas(v, b, c.grouped, 0);
  }

  lemma {:induction false} DigitsOrCommas(v: nat, b: Base, grouped: bool, k: nat)
    requires GoodBase(b)
    ensures forall x | x in Digits(v, b, grouped, k) :: x in b.digits || (grouped && x == ',' as int)
    decreases v
  {
    if v > 0 {
      Shrinks(v, b.radix);
      DigitsOrCommas(v / b.radix, b, grouped, k + 1);
    }
  }

  /** Counted from the right, exactly every (group + 1)-th byte of a grouped number is a separator. */
  lemma CommaPlaces(v: nat, b: Base, i: nat)
    requires GoodBase(b) && i < |Digits(v, b, true, 0)|
    ensures var d := Digits(v, b, true, 0);
            d[|d| - 1 - i] == C(',') <==> (i + 1) % (b.group + 1) == 0
  {
    CommaFrom(v, b, 0, 0, i);
  }

  /** The same with k digits already out, f of them since the last separator. */
  lemma {:induction false} CommaFrom(v: nat, b: Base, k: nat, f: nat, i: nat)
    requires GoodBase(b) && i < |Digits(v, b, true, k)|
    requires if k == 0 then f == 0 else 1 <= f <= b.group && f <= k && (k - f) % b.group == 0
    ensures var d := Digits(v, b, true, k);
            d[|d| - 1 - i] == C(',') <==> (f + i + 1) % (b.group + 1) == 0
    decreases v
  {
    if v > 0 {
      Shrinks(v, b.radix);
      Due(k, f, b.group);
      var high, comma, f' := Digits(v / b.radix, b, true, k + 1), Comma(b, true, k), if f == b.group then 1 else f + 1;
      if i >= 1 + |comma| {
        CommaFrom(v / b.radix, b, k + 1, f', i - 1 - |comma|);
      }
      CommaStep(high, b.digits[v % b.radix], comma, i, f, f', b.group);
    }
  }

  lemma CommaStep(high: seq<Byte>, d: Byte, comma: seq<Byte>, i: nat, f: nat, f': nat, group: nat)
    requires d != C(',') && group >= 1 && f <= group && i < |high| + 1 + |comma|
    requires comma == (if f == group then [C(',')] else []) && f' == if f == group then 1 else f + 1
    requires var low := 1 + |comma|;
             i >= low ==> (high[|high| - 1 - (i - low)] == C(',') <==> (f' + (i - low) + 1) % (group + 1) == 0)
    ensures var s := high + [d] + comma;
            s[|s| - 1 - i] == C(',') <==> (f + i + 1) % (group + 1) == 0
  {
    LowBytes(high, d, comma, i);
    if f == group {
      Wraps(i, group);
    } else if i == 0 {
      Small(f + 1, group + 1);
    }
  }

  lemma LowBytes(high: seq<Byte>, d: Byte, comma: seq<Byte>, i: nat)
    requires i < |high| + 1 + |comma| && (comma == [] || comma == [C(',')])
    ensures var s, low := high + [d] + comma, 1 + |comma|;
            s[|s| - 1 - i] == if i >= low then high[|high| - 1 - (i - low)] else if i < |comma| then C(',') else d
  {
  }

  /** A separator is due exactly after a full group. */
  lemma Due(k: nat, f: nat, group: nat)
    requires group >= 1 && if k == 0 then f == 0 else 1 <= f <= group && f <= k && (k - f) % group == 0
    ensures k > 0 && k % group == 0 <==> f == group
    ensures f == group ==> (k + 1 - 1) % group == 0
    ensures f < group ==> k + 1 - (f + 1) == k - f
  {
    if k > 0 {
      var q := (k - f) / group;
      assert k == q * group + f;
      if f == group {
        assert k == (q + 1) * group;
        Multiple(q + 1, group, 0);
      } else {
        Multiple(q, group, f);
      }
    }
  }

  lemma Multiple(q: nat, m: nat, r: nat)
    requires r < m
    ensures (q * m + r) % m == r
  {
    var x := q * m + r;
    var d := x / m;
    assert d * m + x % m == x;
    Difference(d, q, m);
    NoFactor(d - q, m);
  }

  lemma Difference(a: int, b: int, m: int)
    ensures (a - b) * m == a * m - b * m
  {
  }

  lemma NoFactor(a: int, m: int)
    requires -m < a * m < m
    ensures a == 0
  {
    assert a >= 1 ==> a * m >= m;
    assert a <= -1 ==> a * m <= -m;
  }

  lemma Wraps(i: nat, group: nat)
    requires group >= 1
    ensures (group + i + 1) % (group + 1) == i % (group + 1)
    ensures i == 1 ==> i % (group + 1) == 1
    ensures i >= 2 ==> (1 + (i - 2) + 1) == i
  {
    var m := group + 1;
    var q, r := i / m, i % m;
    assert i == q * m + r;
    Multiple(q + 1, m, r);
    assert group + i + 1 == (q + 1) * m + r;
    Small(1, m);
  }

  lemma Small(x: nat, m: nat)
    requires x < m
    ensures x % m == x
  {
  }

  /** Digits, and nothing else, between the padding of an ungrouped conversion. */
  lemma {:induction false} DigitsAreDigits(v: nat, b: Base, k: nat)
    requires GoodBase(b)
    ensures forall x | x in Digits(v, b, false, k) :: x in b.digits
    decreases v
  {
    if v > 0 {
      Shrinks(v, b.radix);
      DigitsAreDigits(v / b.radix, b, k + 1);
    }
  }

  /** "%0*d" of 42 with width -5: zeros before and blanks behind make eight bytes. */
  lemma PaddedTwice()
    ensures GoodBase(BaseD())
    ensures |Rendering(42, true, false, BaseD(), Conversion(true, false, false, false, true, false, 5, -1))| > 5
  {
    BasesGood();
    var c := Conversion(true, false, false, false, true, false, 5, -1);
    FieldWidth(42, true, false, BaseD(), c);
    DigitsShape(42, BaseD(), false, 0);
    assert Length(4, 10) == 1;
    assert Length(42, 10) == 2;
  }

  // ---------------------------------------------------------------- vsnprintf

  /** struct vsnprintf_aux and its helper. */
  class Aux {
    const buffer: array<Byte>
    var p: nat
    var length: nat
    const maxLength: nat

    constructor (buffer: array<Byte>, size: nat)
      ensures this.buffer == buffer && p == length == 0 && maxLength == if size > 0 then size - 1 else 0
    {
      this.buffer := buffer;
      p, length := 0, 0;
      maxLength := if size > 0 then size - 1 else 0;
    }

    /** One character of output: counted always, stored while there is room. */
    method Output(ch: Byte)
      requires p == (if length < maxLength then length else maxLength) <= buffer.Length && maxLength <= buffer.Length
      modifies this, buffer
      ensures length == old(length) + 1 && p == (if length < maxLength then length else maxLength)
      ensures buffer[..p] == if old(length) < maxLength then old(buffer[..p]) + [ch] else old(buffer[..p])
      ensures buffer[p..] == old(buffer[..])[p..]
    {
      if length < maxLength {
        buffer[p] := ch;
        p := p + 1;
      }
      length := length + 1;
    }
  }

  /** Stores the longest prefix of the output that fits, terminated, touches nothing behind it, and
      returns the length of the whole output. */
  method Vsnprintf(buffer: array<Byte>, size: nat, text: seq<Byte>) returns (n: nat)
    requires size <= buffer.Length
    modifies buffer
    ensures n == |text|
    ensures size == 0 ==> buffer[..] == old(buffer[..])
    ensures size > 0 ==> var k := if |text| < size then |text| else size - 1;
                         buffer[..k] == text[..k] && buffer[k] == 0 && buffer[k + 1..] == old(buffer[..])[k + 1..]
  {
    var aux := new Aux(buffer, size);
    var i := 0;
    while i < |text|
      invariant i <= |text| && aux.length == i && aux.buffer == buffer
      invariant aux.maxLength == if size > 0 then size - 1 else 0
      invariant aux.p == if i < aux.maxLength then i else aux.maxLength
      invariant buffer[..aux.p] == text[..aux.p] && buffer[aux.p..] == old(buffer[..])[aux.p..]
    {
      aux.Output(text[i]);
      i := i + 1;
    }
    if size > 0 {
      ghost var behind := buffer[aux.p..];
      buffer[aux.p] := NUL;
      assert buffer[aux.p + 1..] == behind[1..];
    }
    n := aux.length;
  }
}
