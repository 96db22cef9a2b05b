/** Parsing a decimal integer, and its inverse relation to printing one. */
module Atoi {
  import opened Common
  import opened Bytes
  import opened Stdio

  const INT_MIN: int := -0x8000_0000
  const INT_MAX: int := 0x7FFF_FFFF

  predicate IsSpace(b: Byte) {
    b == 32 || 9 <= b <= 13
  }

  predicate IsDigit(b: Byte) {
    C('0') <= b <= C('9')
  }

  ghost function SpaceRun(s: seq<Byte>): (n: nat)
    ensures n <= |s|
  {
    if s == [] || !IsSpace(s[0]) then 0 else 1 + SpaceRun(s[1..])
  }

  ghost function DigitRun(s: seq<Byte>): (n: nat)
    ensures n <= |s|
  {
    if s == [] || !IsDigit(s[0]) then 0 else 1 + DigitRun(s[1..])
  }

  predicate HasSign(s: seq<Byte>) {
    s != [] && (s[0] == C('+') || s[0] == C('-'))
  }

  /** The number a text denotes: white space, an optional sign, digits, and anything else is ignored. */
  ghost function Denoted(s: seq<Byte>): int {
    SignedNumber(s[SpaceRun(s)..])
  }

  ghost function SignedNumber(t: seq<Byte>): int {
    var n := Number(if HasSign(t) then t[1..] else t);
    if HasSign(t) && t[0] == C('-') then -n else n
  }

  ghost function Number(u: seq<Byte>): int {
    Numeral(u[..DigitRun(u)], 10)
  }

  lemma SpaceRunAt(s: seq<Byte>, i: nat)
    requires i <= |s| && forall k | 0 <= k < i :: IsSpace(s[k])
    ensures SpaceRun(s) == i + SpaceRun(s[i..])
    decreases i
  {
    if i > 0 {
      SpaceRunAt(s[1..], i - 1);
      assert s[1..][i - 1..] == s[i..];
    } else {
      assert s[0..] == s;
    }
  }

  lemma DigitRunAt(s: seq<Byte>, i: nat)
    requires i <= |s| && forall k | 0 <= k < i :: IsDigit(s[k])
    ensures DigitRun(s) == i + DigitRun(s[i..])
    decreases i
  {
    if i > 0 {
      DigitRunAt(s[1..], i - 1);
      assert s[1..][i - 1..] == s[i..];
    } else {
      assert s[0..] == s;
    }
  }

  /** Some element is the terminator, so a scan that stops at it stays inside. */
  method SkipSpaces(s: seq<Byte>) returns (i: nat)
    requires NUL in s
    ensures i == SpaceRun(s) < |s| && NUL in s[i..]
  {
    i := 0;
    assert s[0..] == s;
    while IsSpace(s[i])
      invariant i < |s| && NUL in s[i..] && forall k | 0 <= k < i :: IsSpace(s[k])
      decreases |s| - i
    {
      assert s[i..] == [s[i]] + s[i + 1..];
      i := i + 1;
    }
    SpaceRunAt(s, i);
  }

  /** atoi.  The value is built up as a negative number.  The result is the number the text denotes, for
      all of them that an int can hold; for the others int arithmetic overflows on the way (None). */
  method Atoi(s: seq<Byte>) returns (r: Option<int>)
    requires NUL in s
    ensures r == if INT_MIN <= Denoted(s) <= INT_MAX then Some(Denoted(s)) else None
  {
    var i := SkipSpaces(s);
    r := ParseSigned(s[i..]);
  }

  method ParseSigned(t: seq<Byte>) returns (r: Option<int>)
    requires NUL in t
    ensures r == if INT_MIN <= SignedNumber(t) <= INT_MAX then Some(SignedNumber(t)) else None
  {
    var negative := t[0] == C('-');
    var i := 0;
    assert t[0..] == t;
    if t[0] == C('+') || t[0] == C('-') {
      TailHas(t, 0);
      i := 1;
    }
    var value := ParseDigits(t[i..]);
    if value.None? || (!negative && value.value == INT_MIN) {
      return None;
    }
    return Some(if negative then value.value else -value.value);
  }

  /** The digits at the start of a text, accumulated as a negative number. */
  method ParseDigits(u: seq<Byte>) returns (r: Option<int>)
    requires NUL in u
    ensures Number(u) >= 0
    ensures r == if -Number(u) < INT_MIN then None else Some(-Number(u))
  {
    var value, j := 0, 0;
    assert u[..0] == [] && u[0..] == u;
    while IsDigit(u[j])
      invariant j < |u| && NUL in u[j..] && forall k | 0 <= k < j :: IsDigit(u[k])
      invariant value == -Numeral(u[..j], 10) && INT_MIN <= value <= 0
      decreases |u| - j
    {
      DigitMore(u, j);
      value := value * 10 - (u[j] - C('0'));
      if value < INT_MIN {
        return None;
      }
      j := j + 1;
    }
    DigitRunAt(u, j);
    return Some(value);
  }

  lemma DigitMore(u: seq<Byte>, j: nat)
    requires j < |u| && NUL in u[j..] && forall k | 0 <= k <= j :: IsDigit(u[k])
    ensures j + 1 < |u| && NUL in u[j + 1..]
    ensures Numeral(u[..j + 1], 10) == Numeral(u[..j], 10) * 10 + (u[j] - C('0'))
    ensures 0 <= Numeral(u[..j + 1], 10) <= Number(u)
  {
    TailHas(u, j);
    NextNumeral(u, j);
    DigitRunAt(u, j + 1);
    AllDigits(u);
    NumeralGrows(u, j + 1, DigitRun(u));
  }

  lemma TailHas(u: seq<Byte>, j: nat)
    requires j < |u| && NUL in u[j..] && u[j] != NUL
    ensures j + 1 < |u| && NUL in u[j + 1..]
  {
    assert u[j..] == [u[j]] + u[j + 1..];
  }

  lemma NextNumeral(u: seq<Byte>, j: nat)
    requires j < |u| && IsDigit(u[j])
    ensures Numeral(u[..j + 1], 10) == Numeral(u[..j], 10) * 10 + (u[j] - C('0'))
  {
    NumeralPush(u[..j], u[j], 10);
    assert u[..j + 1] == u[..j] + [u[j]];
  }

  lemma AllDigits(u: seq<Byte>)
    ensures forall k | 0 <= k < DigitRun(u) :: IsDigit(u[k])
  {
    if u != [] && IsDigit(u[0]) {
      AllDigits(u[1..]);
      assert forall k | 1 <= k < DigitRun(u) :: u[k] == u[1..][k - 1];
    }
  }

  /** More digits never make a number smaller. */
  lemma NumeralGrows(u: seq<Byte>, j: nat, n: nat)
    requires j <= n <= |u| && forall k | 0 <= k < n :: IsDigit(u[k])
    ensures 0 <= Numeral(u[..j], 10) <= Numeral(u[..n], 10)
  {
    if n == 0 {
      assert u[..0] == [];
    } else {
      assert u[..n] == u[..n - 1] + [u[n - 1]];
      NumeralPush(u[..n - 1], u[n - 1], 10);
      NumeralGrows(u, if j < n then j else n - 1, n - 1);
    }
  }

  // ---------------------------------------------------------------- what a text denotes

  /** Blanks, tabs, newlines, vertical tabs, form feeds and carriage returns. */
  ghost predicate White(s: seq<Byte>) {
    forall k | 0 <= k < |s| :: s[k] == ' ' as int || 9 <= s[k] <= 13
  }

  ghost predicate DigitsOnly(s: seq<Byte>) {
    forall k | 0 <= k < |s| :: '0' as int <= s[k] <= '9' as int
  }

  /** A text in its parts: white space, at most one sign, digits, and a rest that no digit begins; without a sign and
      digits the rest goes on with neither white space nor a sign. */
  ghost predicate Parts(s: seq<Byte>, white: seq<Byte>, sign: seq<Byte>, digits: seq<Byte>, rest: seq<Byte>) {
    && s == white + (sign + (digits + rest)) && White(white) && DigitsOnly(digits)
    && (sign == [] || sign == ['+' as int] || sign == ['-' as int])
    && (rest != [] ==> !('0' as int <= rest[0] <= '9' as int))
    && (sign == [] && digits == [] && rest != [] ==>
          rest[0] != ' ' as int && !(9 <= rest[0] <= 13) && rest[0] != '+' as int && rest[0] != '-' as int)
  }

  /** Every text has such parts, and the number it denotes is that of its digits, with its sign. */
  lemma DenotedExact(s: seq<Byte>)
    ensures exists white, sign, digits, rest :: Parts(s, white, sign, digits, rest)
    ensures forall white, sign, digits, rest | Parts(s, white, sign, digits, rest) ::
              Denoted(s) == if sign == ['-' as int] then -Numeral(digits, 10) else Numeral(digits, 10)
  {
    HasParts(s);
    forall white, sign, digits, rest | Parts(s, white, sign, digits, rest)
      ensures Denoted(s) == if sign == ['-' as int] then -Numeral(digits, 10) else Numeral(digits, 10)
    {
      PartsGive(s, white, sign, digits, rest);
    }
  }

  lemma HasParts(s: seq<Byte>)
    ensures exists white, sign, digits, rest :: Parts(s, white, sign, digits, rest)
  {
    var white, t := SplitWhite(s);
    var sign, u := SplitSign(t);
    var digits, rest := SplitDigits(u);
    PartsMade(s, white, t, sign, u, digits, rest);
  }

  lemma SplitWhite(s: seq<Byte>) returns (white: seq<Byte>, t: seq<Byte>)
    ensures s == white + t && White(white) && (t != [] ==> !IsSpace(t[0]))
  {
    AllSpaces(s);
    white, t := s[..SpaceRun(s)], s[SpaceRun(s)..];
  }

  lemma SplitSign(t: seq<Byte>) returns (sign: seq<Byte>, u: seq<Byte>)
    ensures t == sign + u && sign == if HasSign(t) then [t[0]] else []
  {
    sign, u := if HasSign(t) then [t[0]] else [], if HasSign(t) then t[1..] else t;
  }

  lemma SplitDigits(u: seq<Byte>) returns (digits: seq<Byte>, rest: seq<Byte>)
    ensures u == digits + rest && DigitsOnly(digits) && (rest != [] ==> !IsDigit(rest[0]))
  {
    AllDigits(u);
    DigitRunEnds(u);
    digits, rest := u[..DigitRun(u)], u[DigitRun(u)..];
  }

  lemma PartsMade(s: seq<Byte>, white: seq<Byte>, t: seq<Byte>, sign: seq<Byte>, u: seq<Byte>, digits: seq<Byte>, rest: seq<Byte>)
    requires s == white + t && t == sign + u && u == digits + rest
    requires White(white) && DigitsOnly(digits) && (rest != [] ==> !IsDigit(rest[0])) && (t != [] ==> !IsSpace(t[0]))
    requires if HasSign(t) then sign == [t[0]] else sign == []
    ensures Parts(s, white, sign, digits, rest)
  {
    if sign == [] && digits == [] {
      assert t == rest;
    }
  }

  lemma AllSpaces(s: seq<Byte>)
    ensures forall k | 0 <= k < SpaceRun(s) :: IsSpace(s[k])
    ensures SpaceRun(s) < |s| ==> !IsSpace(s[SpaceRun(s)])
  {
    if s != [] && IsSpace(s[0]) {
      AllSpaces(s[1..]);
      assert forall k | 1 <= k < SpaceRun(s) :: s[k] == s[1..][k - 1];
    }
  }

  lemma DigitRunEnds(u: seq<Byte>)
    ensures DigitRun(u) < |u| ==> !IsDigit(u[DigitRun(u)])
  {
    if u != [] && IsDigit(u[0]) {
      DigitRunEnds(u[1..]);
    }
  }

  lemma PartsGive(s: seq<Byte>, white: seq<Byte>, sign: seq<Byte>, digits: seq<Byte>, rest: seq<Byte>)
    requires Parts(s, white, sign, digits, rest)
    ensures Denoted(s) == if sign == ['-' as int] then -Numeral(digits, 10) else Numeral(digits, 10)
  {
    var t := sign + (digits + rest);
    assert [] + t == t;
    SignedGive(t, sign, digits, rest);
    WhiteFirst(s, white, t);
  }

  lemma WhiteFirst(s: seq<Byte>, white: seq<Byte>, t: seq<Byte>)
    requires s == white + t && White(white) && (t != [] ==> !IsSpace(t[0]))
    ensures s[SpaceRun(s)..] == t
  {
    SpaceRunAt(s, |white|);
    assert s[|white|..] == t;
  }

  lemma SignedGive(t: seq<Byte>, sign: seq<Byte>, digits: seq<Byte>, rest: seq<Byte>)
    requires t == sign + (digits + rest) && Parts(t, [], sign, digits, rest)
    ensures SignedNumber(t) == if sign == ['-' as int] then -Numeral(digits, 10) else Numeral(digits, 10)
    ensures t != [] ==> !IsSpace(t[0])
  {
    var u := digits + rest;
    NumberIs(u, digits, rest);
    assert u != [] ==> u[0] == if digits == [] then rest[0] else digits[0];
    if sign == [] {
      assert t == u;
    } else {
      assert t[1..] == u && t[0] == sign[0];
    }
  }

  lemma NumberIs(u: seq<Byte>, digits: seq<Byte>, rest: seq<Byte>)
    requires u == digits + rest && DigitsOnly(digits) && (rest != [] ==> !IsDigit(rest[0]))
    ensures Number(u) == Numeral(digits, 10)
  {
    DigitRunAt(u, |digits|);
    assert u[|digits|..] == rest && u[..|digits|] == digits;
  }

  // ---------------------------------------------------------------- printing and parsing

  lemma SpacesThen(n: nat, rest: seq<Byte>)
    requires rest != [] && !IsSpace(rest[0])
    ensures SpaceRun(Repeat(C(' '), n) + rest) == n && (Repeat(C(' '), n) + rest)[n..] == rest
  {
    var s := Repeat(C(' '), n) + rest;
    SpaceRunAt(s, n);
    assert s[n..] == rest;
  }

  lemma DigitsThen(dg: seq<Byte>, rest: seq<Byte>)
    requires (forall x | x in dg :: IsDigit(x)) && rest != [] && !IsDigit(rest[0])
    ensures DigitRun(dg + rest) == |dg| && (dg + rest)[..|dg|] == dg
  {
    var s := dg + rest;
    DigitRunAt(s, |dg|);
    assert s[|dg|..] == rest;
  }

  ghost predicate IsSignText(sg: seq<Byte>) {
    sg == [] || sg == [C('+')] || sg == [C('-')]
  }

  /** A text made of spaces, sign, digits and a tail denotes its signed digits. */
  lemma PartsDenote(n: nat, sg: seq<Byte>, dg: seq<Byte>, rest: seq<Byte>)
    requires IsSignText(sg) && (forall x | x in dg :: IsDigit(x)) && rest != [] && !IsDigit(rest[0])
    requires sg == [] && dg == [] ==> !IsSpace(rest[0]) && !HasSign(rest)
    ensures Denoted(Repeat(C(' '), n) + (sg + (dg + rest))) == if sg == [C('-')] then -Numeral(dg, 10) else Numeral(dg, 10)
  {
    var u := dg + rest;
    var t := sg + u;
    DigitsThen(dg, rest);
    assert sg == [] ==> t == u;
    assert sg != [] ==> t[1..] == u && t[0] == sg[0];
    assert u[0] == if dg == [] then rest[0] else dg[0];
    assert dg != [] ==> dg[0] in dg;
    SpacesThen(n, t);
  }

  lemma RepeatJoin(x: Byte, n: nat, m: nat, s: seq<Byte>)
    ensures Repeat(x, n) + (Repeat(x, m) + s) == Repeat(x, n + m) + s
  {
  }

  /** The layout of every signed decimal conversion: padding, sign, zeros, digits, padding, terminator. */
  ghost function Layout(a: nat, sign: seq<Byte>, z: nat, digits: seq<Byte>, p: nat, tail: seq<Byte>): seq<Byte> {
    Repeat(C(' '), a) + sign + Repeat(C('0'), z) + digits + Repeat(C(' '), p) + ([NUL] + tail)
  }

  lemma LayoutDenotes(a: nat, sign: seq<Byte>, z: nat, digits: seq<Byte>, p: nat, tail: seq<Byte>)
    requires IsSignText(sign) || sign == [C(' ')]
    requires forall x | x in digits :: IsDigit(x)
    ensures Denoted(Layout(a, sign, z, digits, p, tail)) == if sign == [C('-')] then -Numeral(digits, 10) else Numeral(digits, 10)
  {
    var dg, end := Repeat(C('0'), z) + digits, [NUL] + tail;
    NumeralZeros(z, digits, 10);
    LayoutRegroup(a, sign, z, digits, p, tail);
    SignedDenotes(a, sign, dg, p, end);
  }

  lemma SignedDenotes(a: nat, sign: seq<Byte>, dg: seq<Byte>, p: nat, end: seq<Byte>)
    requires IsSignText(sign) || sign == [C(' ')]
    requires (forall x | x in dg :: IsDigit(x)) && end != [] && end[0] == NUL
    ensures Denoted(Repeat(C(' '), a) + (sign + (dg + (Repeat(C(' '), p) + end))))
            == if sign == [C('-')] then -Numeral(dg, 10) else Numeral(dg, 10)
  {
    var sg := if sign == [C(' ')] then [] else sign;
    var n := if sign == [C(' ')] then a + 1 else a;
    LayoutParts(a, sign, dg, Repeat(C(' '), p) + end, sg, n);
    TrailingSpaces(n, sg, dg, p, end);
  }

  lemma TrailingSpaces(n: nat, sg: seq<Byte>, dg: seq<Byte>, p: nat, end: seq<Byte>)
    requires IsSignText(sg) && (forall x | x in dg :: IsDigit(x)) && end != [] && end[0] == NUL
    ensures Denoted(Repeat(C(' '), n) + (sg + (dg + (Repeat(C(' '), p) + end))))
            == if sg == [C('-')] then -Numeral(dg, 10) else Numeral(dg, 10)
  {
    if sg == [] && dg == [] {
      JoinEmpty(n, p, end);
      SpacesThen(n + p, end);
    } else {
      PartsDenote(n, sg, dg, Repeat(C(' '), p) + end);
    }
  }

  lemma JoinEmpty(n: nat, p: nat, end: seq<Byte>)
    ensures Repeat(C(' '), n) + ([] + ([] + (Repeat(C(' '), p) + end))) == Repeat(C(' '), n + p) + end
  {
  }

  lemma LayoutRegroup(a: nat, sign: seq<Byte>, z: nat, digits: seq<Byte>, p: nat, tail: seq<Byte>)
    ensures Layout(a, sign, z, digits, p, tail)
            == Repeat(C(' '), a) + (sign + ((Repeat(C('0'), z) + digits) + (Repeat(C(' '), p) + ([NUL] + tail))))
  {
  }

  /** A sign that is a space belongs to the spaces before it. */
  lemma LayoutParts(a: nat, sign: seq<Byte>, dg: seq<Byte>, rest: seq<Byte>, sg: seq<Byte>, n: nat)
    requires if sign == [C(' ')] then sg == [] && n == a + 1 else sg == sign && n == a
    ensures Repeat(C(' '), a) + (sign + (dg + rest)) == Repeat(C(' '), n) + (sg + (dg + rest))
  {
    if sign == [C(' ')] {
      assert Repeat(C(' '), 1) == sign;
      RepeatJoin(C(' '), a, 1, dg + rest);
      assert sg + (dg + rest) == dg + rest;
    }
  }

  function Abs(v: int): nat {
    if v < 0 then -v else v
  }

  /** The text of v under any signed decimal conversion, terminated and followed by anything. */
  ghost function Printed(v: int, c: Conversion, tail: seq<Byte>): seq<Byte> {
    BasesGood();
    Rendering(Abs(v), true, v < 0, BaseD(), c) + ([NUL] + tail)
  }

  lemma PlainLayout(v: nat, negative: bool, b: Base, c: Conversion, tail: seq<Byte>) returns (a: nat, z: nat, p: nat)
    requires GoodBase(b) && b.x.None?
    ensures Rendering(v, true, negative, b, c) + ([NUL] + tail) == Layout(a, Sign(true, negative, c), z, Body(v, b, c), p, tail)
  {
    var pad := Max0(c.width - |Core(v, true, negative, b, c)|);
    a, z, p := if !c.minus && !c.zero then pad else 0, if c.zero then pad else 0, if c.minus then pad else 0;
    NoPadding(C(' '), pad, !c.minus && !c.zero);
    NoPadding(C('0'), pad, c.zero);
    NoPadding(C(' '), pad, c.minus);
    var front := Repeat(C(' '), a) + Sign(true, negative, c);
    assert front + [] == front;
  }

  lemma NoPadding(x: Byte, pad: nat, used: bool)
    ensures Repeat(x, if used then pad else 0) == if used then Repeat(x, pad) else []
  {
  }

  /** What matters about base_d. */
  ghost predicate Decimal(b: Base) {
    GoodBase(b) && b.radix == 10 && b.group == 3 && b.x.None? && forall d | 0 <= d < 10 :: IsDigit(b.digits[d])
  }

  lemma BaseDIsDecimal()
    ensures Decimal(BaseD())
  {
    BasesGood();
  }

  lemma BodyIsDigits(v: nat, b: Base, c: Conversion)
    requires Decimal(b) && (!c.grouped || v < 1000)
    ensures forall x | x in Body(v, b, c) :: IsDigit(x)
  {
    if !c.grouped {
      DigitsAreDigits(v, b, 0);
    } else {
      var lead, more := FirstGroup(v, b, 0);
      assert lead + more == lead;
    }
  }

  /** Printing then parsing is the identity, whatever the flags, width and precision, unless grouping
      puts a comma into the number: parsing stops there. */
  lemma PrintParse(v: int, c: Conversion, tail: seq<Byte>)
    ensures Denoted(Printed(v, c, tail)) == v <==> !c.grouped || Abs(v) < 1000
  {
    BaseDIsDecimal();
    if !c.grouped || Abs(v) < 1000 {
      PlainPrintParse(v, BaseD(), c, tail);
    } else {
      GroupedPrintParse(v, BaseD(), c, tail);
    }
  }

  lemma PlainPrintParse(v: int, b: Base, c: Conversion, tail: seq<Byte>)
    requires Decimal(b) && (!c.grouped || Abs(v) < 1000)
    ensures Denoted(Rendering(Abs(v), true, v < 0, b, c) + ([NUL] + tail)) == v
  {
    var n := Abs(v);
    var a, z, p := PlainLayout(n, v < 0, b, c, tail);
    BodyIsDigits(n, b, c);
    BodyDenotesValue(n, b, c);
    SignCases(v < 0, c);
    LayoutDenotes(a, Sign(true, v < 0, c), z, Body(n, b, c), p, tail);
  }

  lemma SignCases(negative: bool, c: Conversion)
    ensures IsSignText(Sign(true, negative, c)) || Sign(true, negative, c) == [C(' ')]
    ensures Sign(true, negative, c) == [C('-')] <==> negative
  {
  }

  lemma GroupedPrintParse(v: int, b: Base, c: Conversion, tail: seq<Byte>)
    requires Decimal(b) && c.grouped && Abs(v) >= 1000
    ensures Denoted(Rendering(Abs(v), true, v < 0, b, c) + ([NUL] + tail)) != v
  {
    var n := Abs(v);
    var a, z, p := PlainLayout(n, v < 0, b, c, tail);
    var zeros, lead, more := GroupedBody(n, b, c);
    SignCases(v < 0, c);
    CutDenotes(Rendering(n, true, v < 0, b, c) + ([NUL] + tail), a, Sign(true, v < 0, c), z, zeros, lead, more, p, tail);
  }

  /** How large a number must be for a comma to follow one of its digits. */
  ghost function Threshold(k: nat): nat {
    if k == 0 then 1000 else if k % 3 == 0 then 1 else if k % 3 == 1 then 100 else 10
  }

  /** The digits before the first comma and what follows them. */
  lemma {:induction false} FirstGroup(v: nat, b: Base, k: nat) returns (lead: seq<Byte>, more: seq<Byte>)
    requires Decimal(b)
    ensures Digits(v, b, true, k) == lead + more
    ensures forall x | x in lead :: IsDigit(x)
    ensures more == [] || (more[0] == C(',') && lead != [])
    ensures more != [] <==> v >= Threshold(k)
    ensures Numeral(lead, 10) <= v && (k == 0 && more != [] ==> Numeral(lead, 10) <= v / 10)
    decreases v
  {
    if v == 0 {
      lead, more := [], [];
    } else {
      var l, m := FirstGroup(v / 10, b, k + 1);
      var d, comma := b.digits[v % 10], Comma(b, true, k);
      ThresholdStep(v, k);
      assert IsDigit(d);
      if m == [] {
        lead, more := l + [d], comma;
        assert l + m == l;
        LastGroup(v, b, k, l, d);
      } else {
        lead, more := l, m + [d] + comma;
        Reassociate(l, m, [d], comma);
      }
    }
  }

  lemma LastGroup(v: nat, b: Base, k: nat, l: seq<Byte>, d: Byte)
    requires Decimal(b) && v > 0 && l == Digits(v / 10, b, true, k + 1) && d == b.digits[v % 10]
    ensures Numeral(l + [d], 10) == v
  {
    NumeralDigits(v / 10, b, true, k + 1);
    NumeralPush(l, d, 10);
  }

  lemma ThresholdStep(v: nat, k: nat)
    requires v > 0
    ensures v >= Threshold(k) <==> v / 10 >= Threshold(k + 1) || (k > 0 && k % 3 == 0)
  {
  }

  lemma Reassociate(l: seq<Byte>, m: seq<Byte>, d: seq<Byte>, comma: seq<Byte>)
    ensures l + m + d + comma == l + (m + d + comma)
  {
  }

  lemma GroupedBody(v: nat, b: Base, c: Conversion) returns (zeros: nat, lead: seq<Byte>, more: seq<Byte>)
    requires Decimal(b) && c.grouped && v >= 1000
    ensures Body(v, b, c) == Repeat(C('0'), zeros) + lead + more
    ensures (forall x | x in lead :: IsDigit(x)) && lead != [] && more != [] && more[0] == C(',')
    ensures Numeral(lead, 10) < v
  {
    lead, more := FirstGroup(v, b, 0);
    zeros := PreciseZeros(lead + more, c.precision);
    ZerosInFront(lead, more, zeros);
  }

  lemma PreciseZeros(digits: seq<Byte>, precision: int) returns (zeros: nat)
    ensures Precise(digits, precision) == Repeat(C('0'), zeros) + digits
  {
    zeros := |Precise(digits, precision)| - |digits|;
    assert Repeat(C('0'), 0) + digits == digits;
  }

  lemma ZerosInFront(lead: seq<Byte>, more: seq<Byte>, zeros: nat)
    ensures Repeat(C('0'), zeros) + lead + more == Repeat(C('0'), zeros) + (lead + more)
  {
  }

  /** The layout with the digits cut at their first comma. */
  ghost function Cut(a: nat, sign: seq<Byte>, z: nat, lead: seq<Byte>, more: seq<Byte>, p: nat, tail: seq<Byte>): seq<Byte> {
    Repeat(C(' '), a) + (sign + ((Repeat(C('0'), z) + lead) + (more + (Repeat(C(' '), p) + ([NUL] + tail)))))
  }

  lemma LayoutCut(a: nat, sign: seq<Byte>, z: nat, zeros: nat, lead: seq<Byte>, more: seq<Byte>, p: nat, tail: seq<Byte>)
    ensures Layout(a, sign, z, Repeat(C('0'), zeros) + lead + more, p, tail) == Cut(a, sign, z + zeros, lead, more, p, tail)
  {
    var body := Repeat(C('0'), zeros) + lead + more;
    LayoutRegroup(a, sign, z, body, p, tail);
    assert body == Repeat(C('0'), zeros) + (lead + more);
    RepeatJoin(C('0'), z, zeros, lead + more);
    JoinCut(Repeat(C('0'), z + zeros), lead, more, Repeat(C(' '), p) + ([NUL] + tail));
  }

  lemma JoinCut(zeros: seq<Byte>, lead: seq<Byte>, more: seq<Byte>, rest: seq<Byte>)
    ensures (zeros + (lead + more)) + rest == (zeros + lead) + (more + rest)
  {
  }

  lemma CutDenotes(s: seq<Byte>, a: nat, sign: seq<Byte>, z: nat, zeros: nat, lead: seq<Byte>, more: seq<Byte>, p: nat, tail: seq<Byte>)
    requires IsSignText(sign) || sign == [C(' ')]
    requires (forall x | x in lead :: IsDigit(x)) && lead != [] && more != [] && more[0] == C(',')
    requires s == Layout(a, sign, z, Repeat(C('0'), zeros) + lead + more, p, tail)
    ensures Denoted(s) == if sign == [C('-')] then -Numeral(lead, 10) else Numeral(lead, 10)
  {
    LayoutCut(a, sign, z, zeros, lead, more, p, tail);
    LeadDenotes(s, a, sign, z + zeros, lead, more, Repeat(C(' '), p) + ([NUL] + tail));
  }

  lemma LeadDenotes(s: seq<Byte>, a: nat, sign: seq<Byte>, z: nat, lead: seq<Byte>, more: seq<Byte>, end: seq<Byte>)
    requires IsSignText(sign) || sign == [C(' ')]
    requires (forall x | x in lead :: IsDigit(x)) && lead != [] && more != [] && more[0] == C(',')
    requires s == Repeat(C(' '), a) + (sign + ((Repeat(C('0'), z) + lead) + (more + end)))
    ensures Denoted(s) == if sign == [C('-')] then -Numeral(lead, 10) else Numeral(lead, 10)
  {
    NumeralZeros(z, lead, 10);
    ZerosAreDigits(z, lead);
    CommaFirst(more, end);
    CutParts(a, sign, Repeat(C('0'), z) + lead, more + end);
  }

  lemma ZerosAreDigits(n: nat, lead: seq<Byte>)
    requires (forall x | x in lead :: IsDigit(x)) && lead != []
    ensures (forall x | x in Repeat(C('0'), n) + lead :: IsDigit(x)) && Repeat(C('0'), n) + lead != []
  {
  }

  lemma CommaFirst(more: seq<Byte>, rest: seq<Byte>)
    requires more != [] && more[0] == C(',')
    ensures more + rest != [] && !IsDigit((more + rest)[0])
  {
  }

  lemma CutParts(a: nat, sign: seq<Byte>, dg: seq<Byte>, rest: seq<Byte>)
    requires IsSignText(sign) || sign == [C(' ')]
    requires (forall x | x in dg :: IsDigit(x)) && dg != [] && rest != [] && !IsDigit(rest[0])
    ensures Denoted(Repeat(C(' '), a) + (sign + (dg + rest))) == if sign == [C('-')] then -Numeral(dg, 10) else Numeral(dg, 10)
  {
    var sg := if sign == [C(' ')] then [] else sign;
    var n := if sign == [C(' ')] then a + 1 else a;
    LayoutParts(a, sign, dg, rest, sg, n);
    PartsDenote(n, sg, dg, rest);
  }

  /** The whole round trip through the two routines, for every int. */
  method PrintThenParse(v: int, c: Conversion) returns (r: Option<int>)
    requires INT_MIN <= v <= INT_MAX
    ensures r == Some(v) <==> !c.grouped || Abs(v) < 1000
  {
    BasesGood();
    var text := FormatInteger(Abs(v), true, v < 0, BaseD(), c);
    PrintParse(v, c, []);
    assert [NUL] + [] == [NUL];
    r := Atoi(text + [NUL]);
  }
}
