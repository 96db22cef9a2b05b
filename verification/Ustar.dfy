/** Headers of ustar archives: composing and parsing.

    See "ustar Interchange Format" in the pax utility of IEEE Std 1003.1. */
module Ustar {
  import opened Common
  import opened Bytes
  import opened Stdio

  const HEADER_SIZE: nat := 512
  const NAME_SIZE: nat := 100
  const SIZE_AT: nat := 124
  const CHKSUM_AT: nat := 148
  const CHKSUM_END: nat := 156
  const TYPE_AT: nat := 156
  const MAGIC_AT: nat := 257
  const PREFIX_AT: nat := 345
  const INT_MAX: int := 0x7FFF_FFFF
  const ULONG_LIMIT: nat := 0x1_0000_0000

  datatype FileType = Regular | Directory

  function TypeFlag(ty: FileType): Byte {
    if ty.Regular? then C('0') else C('5')
  }

  // ---------------------------------------------------------------- file names

  function SLASH(): Byte { C('/') }
  function DOT(): Byte { C('.') }

  /** The name starts with "/", "./" or "../". */
  predicate Antisocial(name: seq<Byte>) {
    || (|name| >= 1 && name[0] == SLASH())
    || (|name| >= 2 && name[0] == DOT() && name[1] == SLASH())
    || (|name| >= 3 && name[0] == DOT() && name[1] == DOT() && name[2] == SLASH())
  }

  /** strchr (name, '/'), for a name that has one. */
  function FirstSlash(name: seq<Byte>): (k: nat)
    requires SLASH() in name
    ensures k < |name| && name[k] == SLASH() && SLASH() !in name[..k]
  {
    if name[0] == SLASH() then 0
    else
      var k := FirstSlash(name[1..]) + 1;
      assert name[..k] == [name[0]] + name[1..][..k - 1];
      k
  }

  function Dropped(name: seq<Byte>): (r: seq<Byte>)
    ensures !Antisocial(r) && |r| <= |name|
    decreases |name|
  {
    if Antisocial(name) then
      assert SLASH() in name;
      Dropped(name[FirstSlash(name) + 1..])
    else name
  }

  function Stripped(name: seq<Byte>): seq<Byte> {
    var r := Dropped(name);
    if r == [] || r == [DOT(), DOT()] then [DOT()] else r
  }

  /** Exactly the harmless names are left alone, and every name becomes one of them. */
  lemma StripCleans(name: seq<Byte>)
    ensures Stripped(name) == name <==> Harmless(name)
    ensures Harmless(Stripped(name)) && Stripped(Stripped(name)) == Stripped(name)
    ensures NUL !in name ==> NUL !in Stripped(name)
  {
    HarmlessKept(name);
    HarmlessKept(Stripped(name));
    var k := StripExact(name);
  }

  predicate Harmless(name: seq<Byte>) {
    name != [] && name != [DOT(), DOT()] && !Antisocial(name)
  }

  lemma HarmlessKept(name: seq<Byte>)
    ensures Stripped(name) == name <==> Harmless(name)
  {
  }

  /** What stripping takes off: "/", "./" or "../", as often as there are any. */
  ghost predicate IsPrefix(p: seq<Byte>) {
    p == [C('/')] || p == [C('.'), C('/')] || p == [C('.'), C('.'), C('/')]
  }

  ghost function Joined(parts: seq<seq<Byte>>): seq<Byte> {
    if parts == [] then [] else parts[0] + Joined(parts[1..])
  }

  ghost predicate AllPrefixes(parts: seq<seq<Byte>>) {
    forall i | 0 <= i < |parts| :: IsPrefix(parts[i])
  }

  ghost predicate IsJoined(s: seq<Byte>) {
    exists parts :: AllPrefixes(parts) && Joined(parts) == s
  }

  ghost predicate StartsWithPrefix(s: seq<Byte>) {
    exists n :: 0 <= n <= |s| && IsPrefix(s[..n])
  }

  /** The first k bytes are such prefixes one after the other, and no further one follows. */
  ghost predicate PrefixesEnd(name: seq<Byte>, k: nat) {
    k <= |name| && IsJoined(name[..k]) && !StartsWithPrefix(name[k..])
  }

  lemma SlashEnds(name: seq<Byte>, n: nat)
    requires n <= |name| && IsPrefix(name[..n])
    ensures Antisocial(name) && SLASH() in name && FirstSlash(name) + 1 == n
  {
    var p := name[..n];
    assert forall i | 0 <= i < n :: name[i] == p[i];
    assert SLASH() !in name[..n - 1];
    assert name[n - 1] == SLASH();
  }

  /** A name is antisocial exactly if it starts with one of the prefixes, which ends at the first slash. */
  lemma AntisocialIs(name: seq<Byte>)
    ensures Antisocial(name) <==> StartsWithPrefix(name)
    ensures Antisocial(name) ==> SLASH() in name && IsPrefix(name[..FirstSlash(name) + 1])
  {
    if Antisocial(name) {
      var n := if name[0] == SLASH() then 1 else if name[1] == SLASH() then 2 else 3;
      assert IsPrefix(name[..n]);
      SlashEnds(name, n);
    }
    if StartsWithPrefix(name) {
      var n :| 0 <= n <= |name| && IsPrefix(name[..n]);
      SlashEnds(name, n);
    }
  }

  /** Exactly the antisocial prefixes go: the rest of the name is the result, or "." where the rest is empty
      or "..". */
  lemma StripExact(name: seq<Byte>) returns (k: nat)
    ensures PrefixesEnd(name, k)
    ensures Stripped(name) == if name[k..] == [] || name[k..] == [C('.'), C('.')] then [C('.')] else name[k..]
  {
    k := DroppedExact(name);
  }

  lemma {:induction false} DroppedExact(name: seq<Byte>) returns (k: nat)
    ensures AsUnit(PrefixesEnd(name, k)) && Dropped(name) == name[k..]
    decreases |name|
  {
    AntisocialIs(name);
    if Antisocial(name) {
      var n := FirstSlash(name) + 1;
      k := DroppedExact(name[n..]);
      OnePrefixMore(name, n, k);
      k := n + k;
    } else {
      NoPrefix(name);
      k := 0;
    }
  }

  lemma NoPrefix(name: seq<Byte>)
    requires !StartsWithPrefix(name)
    ensures AsUnit(PrefixesEnd(name, 0)) && name == name[0..]
  {
    assert AllPrefixes([]) && Joined([]) == name[..0];
    assert name[0..] == name;
  }

  lemma OnePrefixMore(name: seq<Byte>, n: nat, k: nat)
    requires n <= |name| && IsPrefix(name[..n]) && AsUnit(PrefixesEnd(name[n..], k))
    ensures AsUnit(PrefixesEnd(name, n + k)) && name[n..][k..] == name[n + k..]
  {
    var parts :| AllPrefixes(parts) && Joined(parts) == name[n..][..k];
    var more := [name[..n]] + parts;
    assert more[1..] == parts;
    assert name[n..][k..] == name[n + k..];
    assert Joined(more) == name[..n] + name[n..][..k] == name[..n + k];
    assert AllPrefixes(more);
  }

  /** There is only one such place. */
  lemma PrefixesUnique(name: seq<Byte>, j: nat, k: nat)
    requires PrefixesEnd(name, j) && PrefixesEnd(name, k)
    ensures j == k
  {
    var a :| AllPrefixes(a) && Joined(a) == name[..j];
    var b :| AllPrefixes(b) && Joined(b) == name[..k];
    SameParts(name, j, k, a, b);
  }

  lemma {:induction false} SameParts(name: seq<Byte>, j: nat, k: nat, a: seq<seq<Byte>>, b: seq<seq<Byte>>)
    requires j <= |name| && !StartsWithPrefix(name[j..]) && AllPrefixes(a) && Joined(a) == name[..j]
    requires k <= |name| && !StartsWithPrefix(name[k..]) && AllPrefixes(b) && Joined(b) == name[..k]
    ensures j == k
    decreases |a|
  {
    if a == [] {
      EmptyParts(name, k, b);
    } else if b == [] {
      EmptyParts(name, j, a);
    } else {
      FirstPart(name, j, a);
      FirstPart(name, k, b);
      SlashEnds(name, |a[0]|);
      SlashEnds(name, |b[0]|);
      var n := |a[0]|;
      SameParts(name[n..], j - n, k - n, a[1..], b[1..]);
    }
  }

  /** Where nothing antisocial starts, there is no part. */
  lemma EmptyParts(name: seq<Byte>, k: nat, b: seq<seq<Byte>>)
    requires !StartsWithPrefix(name[0..]) && k <= |name| && AllPrefixes(b) && Joined(b) == name[..k]
    ensures k == 0
  {
    assert name[0..] == name;
    if k > 0 {
      assert |Joined([])| == 0;
      FirstPart(name, k, b);
    }
  }

  lemma FirstPart(name: seq<Byte>, k: nat, parts: seq<seq<Byte>>)
    requires parts != [] && AllPrefixes(parts) && k <= |name| && Joined(parts) == name[..k]
    ensures var n := |parts[0]|;
            && n <= k && IsPrefix(name[..n]) && AllPrefixes(parts[1..])
            && Joined(parts[1..]) == name[n..][..k - n] && name[n..][k - n..] == name[k..]
  {
    var n := |parts[0]|;
    assert name[..k] == parts[0] + Joined(parts[1..]);
    assert name[..n] == name[..k][..n] == parts[0];
    assert name[n..][..k - n] == name[..k][n..];
  }

  /** strip_antisocial_prefixes. */
  method StripAntisocialPrefixes(fileName: seq<Byte>) returns (r: seq<Byte>)
    ensures r == Stripped(fileName)
  {
    r := fileName;
    while Antisocial(r)
      invariant Dropped(r) == Dropped(fileName)
      decreases |r|
    {
      assert SLASH() in r;
      r := r[FirstSlash(r) + 1..];
    }
    if r == [] || r == [DOT(), DOT()] {
      r := [DOT()];
    }
  }

  /** The C string at the start of some bytes. */
  function CString(s: seq<Byte>): (r: seq<Byte>)
    ensures NUL !in r && |r| <= |s| && r == s[..|r|]
    ensures |r| < |s| ==> s[|r|] == NUL
  {
    if s == [] || s[0] == NUL then [] else [s[0]] + CString(s[1..])
  }

  lemma CStringIs(s: seq<Byte>, name: seq<Byte>)
    requires |name| < |s| && s[..|name|] == name && s[|name|] == NUL && NUL !in name
    ensures CString(s) == name
  {
    var r := CString(s);
    assert forall k | 0 <= k < |name| :: s[k] == name[k] && name[k] in name;
    assert forall k | 0 <= k < |r| :: r[k] == s[k] && r[k] in r;
    assert |r| == |name|;
  }

  // ---------------------------------------------------------------- checksums

  function ChksumByte(h: seq<Byte>, i: nat): Byte
    requires i < |h|
  {
    if CHKSUM_AT <= i < CHKSUM_END then C(' ') else h[i]
  }

  ghost function ChksumTo(h: seq<Byte>, n: nat): (c: nat)
    requires n <= |h|
    ensures c <= 255 * n
  {
    if n == 0 then 0 else ChksumTo(h, n - 1) + ChksumByte(h, n - 1)
  }

  ghost function Chksum(h: seq<Byte>): nat {
    ChksumTo(h, |h|)
  }

  method CalculateChksum(h: seq<Byte>) returns (chksum: nat)
    requires |h| == HEADER_SIZE
    ensures chksum == Chksum(h) < ULONG_LIMIT
  {
    chksum := 0;
    var i := 0;
    while i < HEADER_SIZE
      invariant i <= HEADER_SIZE && chksum == ChksumTo(h, i)
    {
      chksum := chksum + ChksumByte(h, i);
      i := i + 1;
    }
  }

  /** Changing one byte outside the checksum field changes the checksum by the difference. */
  lemma {:induction false} ChksumChange(h: seq<Byte>, i: nat, b: Byte, n: nat)
    requires i < |h| && n <= |h| && !(CHKSUM_AT <= i < CHKSUM_END)
    ensures ChksumTo(h[i := b], n) == ChksumTo(h, n) + (if i < n then b - h[i] else 0)
  {
    if n > 0 {
      ChksumChange(h, i, b, n - 1);
    }
  }

  /** The checksum does not depend on the checksum field. */
  lemma {:induction false} ChksumSame(g: seq<Byte>, h: seq<Byte>, n: nat)
    requires |g| == |h| && n <= |h| && forall i | 0 <= i < |h| && !(CHKSUM_AT <= i < CHKSUM_END) :: g[i] == h[i]
    ensures ChksumTo(g, n) == ChksumTo(h, n)
  {
    if n > 0 {
      ChksumSame(g, h, n - 1);
    }
  }

  // ---------------------------------------------------------------- octal fields

  predicate IsOctal(b: Byte) {
    C('0') <= b <= C('7')
  }

  ghost function OctalRun(s: seq<Byte>): (n: nat)
    ensures n <= |s| && (forall k | 0 <= k < n :: IsOctal(s[k])) && (n < |s| ==> !IsOctal(s[n]))
  {
    if s == [] || !IsOctal(s[0]) then 0 else 1 + OctalRun(s[1..])
  }

  ghost function FieldNumber(s: seq<Byte>): int {
    Numeral(s[..OctalRun(s)], 8)
  }

  /** A field's value: one or more octal digits, ended by a space or null byte inside the field, whose
      number fits an unsigned long. */
  ghost function OctalField(s: seq<Byte>): Option<nat> {
    var n := OctalRun(s);
    var v := FieldNumber(s);
    if 0 < n < |s| && (s[n] == C(' ') || s[n] == NUL) && 0 <= v < ULONG_LIMIT then Some(v) else None
  }

  lemma OctalRunIs(s: seq<Byte>, n: nat)
    requires n <= |s| && (forall k | 0 <= k < n :: IsOctal(s[k])) && (n < |s| ==> !IsOctal(s[n]))
    ensures OctalRun(s) == n
  {
    if n > 0 {
      OctalRunIs(s[1..], n - 1);
    }
  }

  lemma NumeralSteps(s: seq<Byte>, n: nat, m: nat)
    requires n <= m <= |s| && forall k | 0 <= k < m :: IsOctal(s[k])
    ensures 0 <= Numeral(s[..n], 8) <= Numeral(s[..m], 8)
    ensures n < m ==> Numeral(s[..n + 1], 8) == Numeral(s[..n], 8) * 8 + (s[n] - C('0'))
  {
    if n < m {
      assert s[..n + 1] == s[..n] + [s[n]];
      NumeralPush(s[..n], s[n], 8);
    }
    if m == 0 {
      assert s[..0] == [];
    } else {
      assert s[..m] == s[..m - 1] + [s[m - 1]];
      NumeralPush(s[..m - 1], s[m - 1], 8);
      NumeralSteps(s, if n < m then n else m - 1, m - 1);
    }
  }

  lemma OctalNext(s: seq<Byte>, n: nat)
    requires n < |s| && n <= OctalRun(s) && IsOctal(s[n])
    ensures n < OctalRun(s)
    ensures Numeral(s[..n + 1], 8) == Numeral(s[..n], 8) * 8 + (s[n] - C('0')) <= FieldNumber(s)
  {
    NumeralSteps(s, n, OctalRun(s));
    NumeralSteps(s, n + 1, OctalRun(s));
  }

  /** parse_octal_field: the value never exceeds an unsigned long, and overflow is reported exactly when
      the number does not fit. */
  method ParseOctalField(s: seq<Byte>) returns (r: Option<nat>)
    ensures r == OctalField(s)
  {
    var value := 0;
    var ofs := 0;
    assert s[..0] == [];
    while ofs < |s|
      invariant ofs <= |s| && ofs <= OctalRun(s)
      invariant value == Numeral(s[..ofs], 8) && 0 <= value < ULONG_LIMIT
    {
      var c := s[ofs];
      if IsOctal(c) {
        OctalNext(s, ofs);
        if value > (ULONG_LIMIT - 1) / 8 {
          return None;
        }
        value := c - C('0') + value * 8;
      } else if c == C(' ') || c == NUL {
        assert ofs == OctalRun(s);
        return if ofs > 0 then Some(value) else None;
      } else {
        return None;
      }
      ofs := ofs + 1;
    }
    return None;
  }

  /** What "%0<w>o" asks for. */
  function ZeroPadded(w: nat): Conversion {
    Conversion(false, false, false, false, true, false, w, -1)
  }

  /** The text of v under "%0<w>o". */
  ghost function OctalText(v: nat, w: nat): seq<Byte> {
    BasesGood();
    Rendering(v, false, false, BaseO(), ZeroPadded(w))
  }

  ghost predicate Octal(b: Base) {
    GoodBase(b) && b.radix == 8 && b.x.None? && forall d | 0 <= d < 8 :: IsOctal(b.digits[d])
  }

  lemma {:induction false} DigitCount(v: nat, b: Base, k: nat, n: nat)
    requires GoodBase(b) && v < Pow8(n)
    ensures |Digits(v, b, false, k)| <= n
    decreases n
  {
    if v > 0 {
      Shrinks(v, b.radix);
      DigitCount(v / b.radix, b, k + 1, n - 1);
    }
  }

  /** A number that fits is written as exactly w octal digits that denote it. */
  lemma OctalTextSpec(v: nat, w: nat)
    requires w >= 1 && v < Pow8(w)
    ensures |OctalText(v, w)| == w && (forall x | x in OctalText(v, w) :: IsOctal(x)) && Numeral(OctalText(v, w), 8) == v
  {
    BasesGood();
    OctalDigits(v, w, BaseO());
  }

  lemma OctalDigits(v: nat, w: nat, b: Base)
    requires w >= 1 && v < Pow8(w) && Octal(b)
    ensures var s := Rendering(v, false, false, b, ZeroPadded(w));
            |s| == w && (forall x | x in s :: IsOctal(x)) && Numeral(s, 8) == v
  {
    var body := Body(v, b, ZeroPadded(w));
    OctalBody(v, w, b);
    BodyDenotesValue(v, b, ZeroPadded(w));
    NumeralZeros(w - |body|, body, 8);
    OctalRendering(v, w, b);
  }

  lemma OctalBody(v: nat, w: nat, b: Base)
    requires w >= 1 && v < Pow8(w) && Octal(b)
    ensures |Body(v, b, ZeroPadded(w))| <= w && forall x | x in Body(v, b, ZeroPadded(w)) :: IsOctal(x)
  {
    DigitCount(v, b, 0, w);
    DigitsAreDigits(v, b, 0);
  }

  lemma OctalRendering(v: nat, w: nat, b: Base)
    requires Octal(b) && |Body(v, b, ZeroPadded(w))| <= w
    ensures var body := Body(v, b, ZeroPadded(w));
            Rendering(v, false, false, b, ZeroPadded(w)) == Repeat(C('0'), w - |body|) + body
  {
    var body := Body(v, b, ZeroPadded(w));
    assert |Core(v, false, false, b, ZeroPadded(w))| == |body|;
    Emptied(Repeat(C('0'), w - |body|), body);
  }

  lemma Emptied(zeros: seq<Byte>, body: seq<Byte>)
    ensures [] + [] + [] + zeros + body + [] == zeros + body
  {
  }

  lemma FieldParses(text: seq<Byte>, v: nat)
    requires text != [] && (forall x | x in text :: IsOctal(x)) && Numeral(text, 8) == v < ULONG_LIMIT
    ensures OctalField(text + [NUL]) == Some(v)
  {
    var s := text + [NUL];
    OctalRunIs(s, |text|);
    assert s[..|text|] == text;
  }

  // ---------------------------------------------------------------- headers

  function Unsigned(size: int): int {
    if size < 0 then size + ULONG_LIMIT else size
  }

  ghost function ModeText(ty: FileType): seq<Byte> {
    OctalText(if ty.Regular? then 0x1A4 else 0x1ED, 7)
  }

  /** Bytes of a field and the terminator behind them. */
  ghost function Field(s: seq<Byte>): seq<Byte> {
    s + [NUL]
  }

  function Padded(s: seq<Byte>, n: nat): (r: seq<Byte>)
    requires |s| <= n
    ensures |r| == n && r[..|s|] == s && forall k | |s| <= k < n :: r[k] == NUL
  {
    s + Repeat(NUL, n - |s|)
  }

  function Magic(): seq<Byte> {
    Codes("ustar") + [NUL]
  }

  /** The fields before the checksum: name, mode, uid, gid, size, mtime. */
  ghost function Front(name: seq<Byte>, ty: FileType, size: int): (f: seq<Byte>)
    requires |name| < NAME_SIZE && -INT_MAX - 1 <= size <= INT_MAX
    ensures |f| == CHKSUM_AT
  {
    FieldsFit(ty, size);
    Padded(name, 100) + Field(ModeText(ty)) + Field(Repeat(C('0'), 7)) + Field(Repeat(C('0'), 7))
    + Field(OctalText(Unsigned(size), 11)) + Field(OctalText(1136102400, 11))
  }

  /** The fields behind it: type, no link, magic, version, user, group, no device, no prefix. */
  ghost function Back(ty: FileType): (b: seq<Byte>)
    ensures |b| == HEADER_SIZE - CHKSUM_END
  {
    [TypeFlag(ty)] + Repeat(NUL, 100) + Magic() + [C('0'), C('0')]
    + Padded(Codes("root"), 32) + Padded(Codes("root"), 32) + Repeat(NUL, 183)
  }

  ghost function ImageSum(name: seq<Byte>, ty: FileType, size: int): (c: nat)
    requires |name| < NAME_SIZE && -INT_MAX - 1 <= size <= INT_MAX
    ensures c <= 255 * HEADER_SIZE
  {
    Chksum(Front(name, ty, size) + Repeat(NUL, 8) + Back(ty))
  }

  /** The header of a file, field by field as the format lays them out. */
  ghost function Image(name: seq<Byte>, ty: FileType, size: int): (h: seq<Byte>)
    requires |name| < NAME_SIZE && -INT_MAX - 1 <= size <= INT_MAX
    ensures |h| == HEADER_SIZE
  {
    PowersOfEight();
    OctalTextSpec(ImageSum(name, ty, size), 7);
    Front(name, ty, size) + Field(OctalText(ImageSum(name, ty, size), 7)) + Back(ty)
  }

  lemma PowersOfEight()
    ensures Pow8(7) == 2097152 && Pow8(11) == 8589934592
  {
    assert Pow8(2) == 64;
    assert Pow8(4) == 64 * Pow8(2);
    assert Pow8(6) == 64 * Pow8(4);
    assert Pow8(8) == 64 * Pow8(6);
    assert Pow8(10) == 64 * Pow8(8);
  }

  lemma FieldsFit(ty: FileType, size: int)
    requires -INT_MAX - 1 <= size <= INT_MAX
    ensures |ModeText(ty)| == 7 && |OctalText(Unsigned(size), 11)| == 11 && |OctalText(1136102400, 11)| == 11
  {
    PowersOfEight();
    OctalTextSpec(if ty.Regular? then 0x1A4 else 0x1ED, 7);
    OctalTextSpec(Unsigned(size), 11);
    OctalTextSpec(1136102400, 11);
  }

  // ---------------------------------------------------------------- composing a header

  lemma PutNext(s: seq<Byte>, lo: nat, at: nat, bytes: seq<Byte>)
    requires lo <= at && at + |bytes| <= |s|
    ensures var r := Put(s, at, bytes);
            && r[..lo] == s[..lo] && r[lo..at + |bytes|] == s[lo..at] + bytes && r[at + |bytes|..] == s[at + |bytes|..]
  {
  }

  /** Nothing but null bytes from position n on. */
  ghost predicate Blank(s: seq<Byte>, n: nat) {
    forall k | n <= k < |s| :: s[k] == NUL
  }

  /** Storing the next field behind those already there. */
  method Append(header: array<Byte>, at: nat, bytes: seq<Byte>) returns (next: nat)
    requires at + |bytes| <= header.Length && Blank(header[..], at)
    modifies header
    ensures next == at + |bytes| && header[..next] == old(header[..at]) + bytes && Blank(header[..], next)
  {
    PutNext(header[..], 0, at, bytes);
    Store(header, at, bytes);
    next := at + |bytes|;
    assert header[..next] == header[..][..next];
  }

  /** Storing a field and leaving the rest of its room blank. */
  method AppendPadded(header: array<Byte>, at: nat, bytes: seq<Byte>, n: nat) returns (next: nat)
    requires |bytes| <= n && at + n <= header.Length && Blank(header[..], at)
    modifies header
    ensures next == at + n && header[..next] == old(header[..at]) + Padded(bytes, n) && Blank(header[..], next)
  {
    var end := Append(header, at, bytes);
    next := at + n;
    PaddedPrefix(header[..], at, bytes, n);
    assert header[..next] == header[..][..next] && header[..end] == header[..][..end];
    assert old(header[..at]) == header[..][..at] by {
      assert header[..end][..at] == old(header[..at]);
    }
  }

  lemma PaddedPrefix(s: seq<Byte>, at: nat, bytes: seq<Byte>, n: nat)
    requires |bytes| <= n && at + n <= |s| && Blank(s, at + |bytes|) && s[..at + |bytes|] == s[..at] + bytes
    ensures s[..at + n] == s[..at] + Padded(bytes, n)
  {
    var r := s[..at] + Padded(bytes, n);
    forall k | 0 <= k < at + n ensures s[k] == r[k] {
      if k < at + |bytes| {
        assert s[k] == s[..at + |bytes|][k];
        assert at <= k ==> Padded(bytes, n)[k - at] == Padded(bytes, n)[..|bytes|][k - at];
      }
    }
  }

  method OctalString(v: nat, w: nat) returns (text: seq<Byte>)
    requires v < 0x1_0000_0000_0000_0000
    ensures text == OctalText(v, w)
  {
    BasesGood();
    text := FormatInteger(v, false, false, BaseO(), ZeroPadded(w));
  }

  method FillFront(header: array<Byte>, name: seq<Byte>, ty: FileType, size: int)
    requires |name| < NAME_SIZE && -INT_MAX - 1 <= size <= INT_MAX
    requires header.Length == HEADER_SIZE && Blank(header[..], 0)
    modifies header
    ensures header[..CHKSUM_AT] == Front(name, ty, size) && Blank(header[..], CHKSUM_AT)
  {
    FieldsFit(ty, size);
    var mode := OctalString(if ty.Regular? then 0x1A4 else 0x1ED, 7);
    var sizeText := OctalString(Unsigned(size), 11);
    var mtime := OctalString(1136102400, 11);
    var at := AppendPadded(header, 0, name, 100);
    assert header[..at] == Padded(name, 100);
    at := Append(header, at, mode + [NUL]);
    at := Append(header, at, Repeat(C('0'), 7) + [NUL]);
    at := Append(header, at, Repeat(C('0'), 7) + [NUL]);
    at := Append(header, at, sizeText + [NUL]);
    at := Append(header, at, mtime + [NUL]);
  }

  method FillBack(header: array<Byte>, ty: FileType)
    requires header.Length == HEADER_SIZE && Blank(header[..], CHKSUM_AT)
    modifies header
    ensures header[..] == old(header[..CHKSUM_AT]) + Repeat(NUL, 8) + Back(ty)
  {
    var at := AppendPadded(header, CHKSUM_AT, [], 8);
    ghost var front := header[..at];
    assert front == old(header[..CHKSUM_AT]) + Repeat(NUL, 8) by {
      NoBytes(8);
    }
    at := Append(header, at, [TypeFlag(ty)]);
    at := AppendPadded(header, at, [], 100);
    at := Append(header, at, Magic());
    at := Append(header, at, [C('0'), C('0')]);
    at := AppendPadded(header, at, Codes("root"), 32);
    at := AppendPadded(header, at, Codes("root"), 32);
    at := AppendPadded(header, at, [], 183);
    NoBytes(100);
    NoBytes(183);
    BackRegroup(front, [TypeFlag(ty)], Repeat(NUL, 100), Magic(), [C('0'), C('0')], Padded(Codes("root"), 32), Repeat(NUL, 183));
    assert header[..] == header[..at];
  }

  lemma NoBytes(n: nat)
    ensures Padded([], n) == Repeat(NUL, n)
  {
  }

  lemma BackRegroup(front: seq<Byte>, a: seq<Byte>, b: seq<Byte>, c: seq<Byte>, d: seq<Byte>, e: seq<Byte>, g: seq<Byte>)
    ensures front + a + b + c + d + e + e + g == front + (a + b + c + d + e + e + g)
  {
    var l, r := front + a + b + c + d + e + e + g, front + (a + b + c + d + e + e + g);
    Assoc(front, a, b);
    Assoc(front, a + b, c);
    Assoc(front, a + b + c, d);
    Assoc(front, a + b + c + d, e);
    Assoc(front, a + b + c + d + e, e);
    Assoc(front, a + b + c + d + e + e, g);
  }

  lemma Assoc(a: seq<Byte>, b: seq<Byte>, c: seq<Byte>)
    ensures a + b + c == a + (b + c)
  {
  }

  lemma PutMiddle(a: seq<Byte>, b: seq<Byte>, c: seq<Byte>, x: seq<Byte>)
    requires |x| == |b|
    ensures Put(a + b + c, |a|, x) == a + x + c
  {
  }

  /** ustar_make_header: fails exactly for names too long after stripping, and otherwise writes the
      header of the stripped name in place. */
  method MakeHeader(fileName: seq<Byte>, ty: FileType, size: int, header: array<Byte>) returns (ok: bool)
    requires header.Length == HEADER_SIZE && -INT_MAX - 1 <= size <= INT_MAX
    modifies header
    ensures ok <==> |Stripped(fileName)| < NAME_SIZE
    ensures header[..] == if ok then Image(Stripped(fileName), ty, size) else old(header[..])
  {
    var name := StripAntisocialPrefixes(fileName);
    if |name| > 99 {
      return false;
    }
    Store(header, 0, Repeat(NUL, HEADER_SIZE));
    PutWhole(old(header[..]), Repeat(NUL, HEADER_SIZE));
    FillFront(header, name, ty, size);
    FillBack(header, ty);
    var chksum := CalculateChksum(header[..]);
    var text := OctalString(chksum, 7);
    PowersOfEight();
    OctalTextSpec(chksum, 7);
    PutMiddle(Front(name, ty, size), Repeat(NUL, 8), Back(ty), text + [NUL]);
    Store(header, CHKSUM_AT, text + [NUL]);
    return true;
  }

  // ---------------------------------------------------------------- parsing a header

  datatype Problem = NotUstar | BadVersion | CorruptChksum | ChksumMismatch | NameTooLong | BadType | CorruptSize | TooLarge

  datatype Parsed = EndOfArchive | File(name: seq<Byte>, ty: FileType, size: int) | Failed(problem: Problem)

  ghost function ParsedType(h: seq<Byte>): Parsed
    requires |h| == HEADER_SIZE
  {
    if h[TYPE_AT] == TypeFlag(Regular) then
      var size := OctalField(h[SIZE_AT..SIZE_AT + 12]);
      if size.None? then Failed(CorruptSize)
      else if size.value > INT_MAX then Failed(TooLarge)
      else File(Stripped(CString(h[..NAME_SIZE])), Regular, size.value)
    else if h[TYPE_AT] == TypeFlag(Directory) then File(Stripped(CString(h[..NAME_SIZE])), Directory, 0)
    else Failed(BadType)
  }

  /** What a header says, with its faults in the order they are looked for. */
  ghost function Parse(h: seq<Byte>): Parsed
    requires |h| == HEADER_SIZE
  {
    if Blank(h, 0) then EndOfArchive
    else if h[MAGIC_AT..MAGIC_AT + 6] != Magic() then Failed(NotUstar)
    else if h[MAGIC_AT + 6] != C('0') || h[MAGIC_AT + 7] != C('0') then Failed(BadVersion)
    else
      var chksum := OctalField(h[CHKSUM_AT..CHKSUM_END]);
      if chksum.None? then Failed(CorruptChksum)
      else if chksum.value != Chksum(h) then Failed(ChksumMismatch)
      else if h[NAME_SIZE - 1] != NUL || h[PREFIX_AT] != NUL then Failed(NameTooLong)
      else ParsedType(h)
  }

  method IsAllZeros(block: seq<Byte>) returns (r: bool)
    ensures r == Blank(block, 0)
  {
    var i := 0;
    while i < |block|
      invariant i <= |block| && forall k | 0 <= k < i :: block[k] == NUL
    {
      if block[i] != NUL {
        return false;
      }
      i := i + 1;
    }
    return true;
  }

  method ParseHeader(h: seq<Byte>) returns (r: Parsed)
    requires |h| == HEADER_SIZE
    ensures r == Parse(h)
  {
    var zeros := IsAllZeros(h);
    if zeros {
      return EndOfArchive;
    }
    if h[MAGIC_AT..MAGIC_AT + 6] != Magic() {
      return Failed(NotUstar);
    } else if h[MAGIC_AT + 6] != C('0') || h[MAGIC_AT + 7] != C('0') {
      return Failed(BadVersion);
    }
    var chksum := ParseOctalField(h[CHKSUM_AT..CHKSUM_END]);
    if chksum.None? {
      return Failed(CorruptChksum);
    }
    var computed := CalculateChksum(h);
    if chksum.value != computed {
      return Failed(ChksumMismatch);
    } else if h[NAME_SIZE - 1] != NUL || h[PREFIX_AT] != NUL {
      return Failed(NameTooLong);
    } else if h[TYPE_AT] != TypeFlag(Regular) && h[TYPE_AT] != TypeFlag(Directory) {
      return Failed(BadType);
    }
    var size := Some(0);
    if h[TYPE_AT] == TypeFlag(Regular) {
      size := ParseOctalField(h[SIZE_AT..SIZE_AT + 12]);
      if size.None? {
        return Failed(CorruptSize);
      } else if size.value > INT_MAX {
        return Failed(TooLarge);
      }
    }
    var cname := CString(h[..NAME_SIZE]);
    var name := StripAntisocialPrefixes(cname);
    return File(name, if h[TYPE_AT] == TypeFlag(Regular) then Regular else Directory, size.value);
  }

  // ---------------------------------------------------------------- the fields of a header

  lemma FrontFields(name: seq<Byte>, ty: FileType, size: int)
    requires |name| < NAME_SIZE && -INT_MAX - 1 <= size <= INT_MAX
    ensures var f := Front(name, ty, size);
            f[..NAME_SIZE] == Padded(name, 100) && f[SIZE_AT..SIZE_AT + 12] == Field(OctalText(Unsigned(size), 11))
  {
    FieldsFit(ty, size);
    Slices(Padded(name, 100), Field(ModeText(ty)), Field(Repeat(C('0'), 7)), Field(OctalText(Unsigned(size), 11)),
           Field(OctalText(1136102400, 11)));
  }

  lemma Slices(a: seq<Byte>, b: seq<Byte>, c: seq<Byte>, d: seq<Byte>, e: seq<Byte>)
    requires |a| == 100 && |b| == |c| == 8 && |d| == 12
    ensures var f := a + b + c + c + d + e;
            f[..100] == a && f[124..136] == d
  {
  }

  lemma BackFields(ty: FileType)
    ensures var b := Back(ty);
            && b[0] == TypeFlag(ty) && b[101..107] == Magic() && b[107] == C('0') && b[108] == C('0') && b[189] == NUL
  {
    var a, m, v := [TypeFlag(ty)] + Repeat(NUL, 100), Magic(), [C('0'), C('0')];
    var e, g := Padded(Codes("root"), 32), Repeat(NUL, 183);
    assert Back(ty) == a + m + v + e + e + g;
  }

  /** The fields of a header are those of its three parts. */
  lemma ImageFields(name: seq<Byte>, ty: FileType, size: int)
    requires |name| < NAME_SIZE && -INT_MAX - 1 <= size <= INT_MAX
    ensures var h, f, b := Image(name, ty, size), Front(name, ty, size), Back(ty);
            && h[..NAME_SIZE] == f[..NAME_SIZE] && h[SIZE_AT..SIZE_AT + 12] == f[SIZE_AT..SIZE_AT + 12]
            && h[CHKSUM_AT..CHKSUM_END] == Field(OctalText(ImageSum(name, ty, size), 7))
            && h[TYPE_AT] == b[0] && h[MAGIC_AT..MAGIC_AT + 6] == b[101..107]
            && h[MAGIC_AT + 6] == b[107] && h[MAGIC_AT + 7] == b[108] && h[PREFIX_AT] == b[189]
            && Chksum(h) == ImageSum(name, ty, size)
  {
    PowersOfEight();
    OctalTextSpec(ImageSum(name, ty, size), 7);
    var f, x, b := Front(name, ty, size), Field(OctalText(ImageSum(name, ty, size), 7)), Back(ty);
    Parts(f, x, b);
    ChksumSame(f + Repeat(NUL, 8) + b, f + x + b, HEADER_SIZE);
  }

  lemma Parts(f: seq<Byte>, x: seq<Byte>, b: seq<Byte>)
    requires |f| == CHKSUM_AT && |x| == 8 && |b| == HEADER_SIZE - CHKSUM_END
    ensures var h := f + x + b;
            && h[..NAME_SIZE] == f[..NAME_SIZE] && h[SIZE_AT..SIZE_AT + 12] == f[SIZE_AT..SIZE_AT + 12]
            && h[CHKSUM_AT..CHKSUM_END] == x && h[MAGIC_AT..MAGIC_AT + 6] == b[101..107]
            && forall k | 0 <= k < |b| :: h[CHKSUM_END + k] == b[k]
  {
  }

  // ---------------------------------------------------------------- the format, position by position

  ghost function ByteSum(s: seq<Byte>): nat {
    if s == [] then 0 else ByteSum(s[..|s| - 1]) + s[|s| - 1]
  }

  lemma {:induction false} ByteSumAppend(s: seq<Byte>, t: seq<Byte>)
    ensures ByteSum(s + t) == ByteSum(s) + ByteSum(t)
    decreases |t|
  {
    if t == [] {
      assert s + t == s;
    } else {
      ByteSumAppend(s, t[..|t| - 1]);
      assert (s + t)[..|s + t| - 1] == s + t[..|t| - 1];
    }
  }

  /** The checksum is the sum of all bytes, the eight of the checksum field counted as blanks. */
  lemma ChksumIs(h: seq<Byte>)
    requires |h| == 512
    ensures Chksum(h) == ByteSum(h[..148]) + 8 * 32 + ByteSum(h[156..])
  {
    ChksumBefore(h, 148);
    ChksumWithin(h, 8);
    ChksumBehind(h, 512);
    assert h[156..512] == h[156..];
  }

  lemma {:induction false} ChksumBefore(h: seq<Byte>, n: nat)
    requires n <= 148 && n <= |h|
    ensures ChksumTo(h, n) == ByteSum(h[..n])
  {
    if n > 0 {
      ChksumBefore(h, n - 1);
      assert h[..n][..n - 1] == h[..n - 1];
    }
  }

  lemma {:induction false} ChksumWithin(h: seq<Byte>, n: nat)
    requires n <= 8 && 148 + n <= |h|
    ensures ChksumTo(h, 148 + n) == ChksumTo(h, 148) + n * 32
  {
    if n > 0 {
      ChksumWithin(h, n - 1);
    }
  }

  lemma {:induction false} ChksumBehind(h: seq<Byte>, n: nat)
    requires 156 <= n <= |h|
    ensures ChksumTo(h, n) == ChksumTo(h, 156) + ByteSum(h[156..n])
    decreases n
  {
    if n > 156 {
      ChksumBehind(h, n - 1);
      assert h[156..n][..n - 157] == h[156..n - 1];
    }
  }

  /** A field of octal digits that denote v, and a null byte behind them. */
  ghost predicate Denotes(f: seq<Byte>, v: int) {
    && |f| > 1 && f[|f| - 1] == 0 && (forall k | 0 <= k < |f| - 1 :: 48 <= f[k] <= 55)
    && Numeral(f[..|f| - 1], 8) == v
  }

  lemma FieldDenotes(v: nat, w: nat)
    requires w >= 1 && v < Pow8(w)
    ensures |Field(OctalText(v, w))| == w + 1 && Denotes(Field(OctalText(v, w)), v)
  {
    OctalTextSpec(v, w);
    var t := OctalText(v, w);
    assert Field(t)[..w] == t;
    assert forall k | 0 <= k < w :: t[k] in t;
  }

  lemma {:induction false} ZerosDenote(n: nat)
    requires n >= 1
    ensures Denotes(Field(Repeat(C('0'), n)), 0)
  {
    var z := Repeat(C('0'), n);
    NumeralZeros(n, [], 8);
    assert z + [] == z && Field(z)[..n] == z;
  }

  /** Where the format wants what, byte by byte: name, mode, owner, size and time in front; the checksum;
      and type, magic, version and owner names behind. */
  lemma HeaderLayout(name: seq<Byte>, ty: FileType, size: int)
    requires |name| < 100 && -INT_MAX - 1 <= size <= INT_MAX
    ensures var h := Image(name, ty, size); FrontLayout(h, name, ty, size) && BackLayout(h, ty)
    ensures var h := Image(name, ty, size); Denotes(h[148..156], ByteSum(h[..148]) + 8 * 32 + ByteSum(h[156..]))
  {
    var f, x, b := Front(name, ty, size), Field(OctalText(ImageSum(name, ty, size), 7)), Back(ty);
    ChksumLaid(name, ty, size);
    FrontLaid(name, ty, size);
    BackLaid(ty);
    Around(f, x, b, name, ty, size);
  }

  lemma ChksumLaid(name: seq<Byte>, ty: FileType, size: int)
    requires |name| < 100 && -INT_MAX - 1 <= size <= INT_MAX
    ensures var h := Image(name, ty, size); AsUnit(Denotes(h[148..156], ByteSum(h[..148]) + 8 * 32 + ByteSum(h[156..])))
    ensures |Field(OctalText(ImageSum(name, ty, size), 7))| == 8
  {
    ImageFields(name, ty, size);
    PowersOfEight();
    FieldDenotes(ImageSum(name, ty, size), 7);
    SumLaid(Image(name, ty, size), Field(OctalText(ImageSum(name, ty, size), 7)));
  }

  lemma SumLaid(h: seq<Byte>, x: seq<Byte>)
    requires |h| == 512 && h[148..156] == x && Denotes(x, Chksum(h))
    ensures AsUnit(Denotes(h[148..156], ByteSum(h[..148]) + 8 * 32 + ByteSum(h[156..])))
  {
    ChksumIs(h);
  }

  lemma Around(f: seq<Byte>, x: seq<Byte>, b: seq<Byte>, name: seq<Byte>, ty: FileType, size: int)
    requires |name| < 100 && |f| == 148 && |x| == 8 && |b| == 356 && FrontLayout(f, name, ty, size)
    requires BackLayout(Repeat(NUL, 156) + b, ty)
    ensures AsUnit(FrontLayout(f + x + b, name, ty, size)) && AsUnit(BackLayout(f + x + b, ty))
  {
    var h, g := f + x + b, Repeat(NUL, 156) + b;
    SameSlices(f, h, 148);
    assert forall k | 156 <= k < 512 :: h[k] == g[k];
  }

  lemma SameSlices(f: seq<Byte>, h: seq<Byte>, n: nat)
    requires n <= |f| && n <= |h| && forall k | 0 <= k < n :: f[k] == h[k]
    ensures forall i, j | 0 <= i <= j <= n :: f[i..j] == h[i..j]
  {
  }

  ghost predicate FrontLayout(h: seq<Byte>, name: seq<Byte>, ty: FileType, size: int)
    requires |h| >= 148 && |name| < 100
  {
    && h[0..|name|] == name && (forall k | |name| <= k < 100 :: h[k] == 0)
    && Denotes(h[100..108], if ty.Regular? then 6 * 64 + 4 * 8 + 4 else 7 * 64 + 5 * 8 + 5)
    && Denotes(h[108..116], 0) && Denotes(h[116..124], 0)
    && Denotes(h[124..136], if size < 0 then size + 0x1_0000_0000 else size)
    && Denotes(h[136..148], 1136102400)
  }

  lemma FrontLaid(name: seq<Byte>, ty: FileType, size: int)
    requires |name| < 100 && -INT_MAX - 1 <= size <= INT_MAX
    ensures AsUnit(FrontLayout(Front(name, ty, size), name, ty, size))
  {
    FieldsFit(ty, size);
    PowersOfEight();
    FieldDenotes(if ty.Regular? then 0x1A4 else 0x1ED, 7);
    FieldDenotes(Unsigned(size), 11);
    FieldDenotes(1136102400, 11);
    ZerosDenote(7);
    FrontMade(Padded(name, 100), Field(ModeText(ty)), Field(Repeat(C('0'), 7)), Field(OctalText(Unsigned(size), 11)),
              Field(OctalText(1136102400, 11)), name, ty, size);
  }

  lemma FrontMade(a: seq<Byte>, b: seq<Byte>, c: seq<Byte>, d: seq<Byte>, e: seq<Byte>, name: seq<Byte>, ty: FileType, size: int)
    requires |a| == 100 && |b| == |c| == 8 && |d| == |e| == 12 && |name| < 100 && a == Padded(name, 100)
    requires Denotes(b, if ty.Regular? then 0x1A4 else 0x1ED) && Denotes(c, 0)
    requires Denotes(d, Unsigned(size)) && Denotes(e, 1136102400)
    ensures AsUnit(FrontLayout(a + b + c + c + d + e, name, ty, size))
  {
    FrontSlices(a, b, c, d, e, name);
  }

  lemma FrontSlices(a: seq<Byte>, b: seq<Byte>, c: seq<Byte>, d: seq<Byte>, e: seq<Byte>, name: seq<Byte>)
    requires |a| == 100 && |b| == |c| == 8 && |d| == |e| == 12
    requires |name| < 100 && a == Padded(name, 100)
    ensures var f := a + b + c + c + d + e;
            && f[0..|name|] == name && (forall k | |name| <= k < 100 :: f[k] == NUL)
            && f[100..108] == b && f[108..116] == c && f[116..124] == c && f[124..136] == d && f[136..148] == e
  {
    var f := a + b + c + c + d + e;
    assert f[..100] == a;
    assert f[0..|name|] == a[..|name|];
    assert forall k | 0 <= k < 100 :: f[k] == a[k];
  }

  ghost predicate BackLayout(h: seq<Byte>, ty: FileType)
    requires |h| == 512
  {
    && h[156] == (if ty.Regular? then '0' else '5') as int
    && (forall k | 157 <= k < 257 :: h[k] == 0)
    && h[257] == 'u' as int && h[258] == 's' as int && h[259] == 't' as int && h[260] == 'a' as int && h[261] == 'r' as int
    && h[262] == 0 && h[263] == '0' as int && h[264] == '0' as int
    && RootAt(h, 265) && RootAt(h, 297) && (forall k | 329 <= k < 512 :: h[k] == 0)
  }

  /** An owner's name in its 32 bytes. */
  ghost predicate RootAt(h: seq<Byte>, at: nat)
    requires at + 32 <= |h|
  {
    && h[at] == 'r' as int && h[at + 1] == 'o' as int && h[at + 2] == 'o' as int && h[at + 3] == 't' as int
    && forall k | at + 4 <= k < at + 32 :: h[k] == 0
  }

  lemma BackLaid(ty: FileType)
    ensures AsUnit(BackLayout(Repeat(NUL, 156) + Back(ty), ty))
  {
    var root := Padded(Codes("root"), 32);
    RootPadded(root);
    var m := Magic();
    assert m[0] == 'u' as int && m[1] == 's' as int && m[2] == 't' as int && m[3] == 'a' as int && m[4] == 'r' as int && m[5] == 0;
    BackSlices([TypeFlag(ty)], Repeat(NUL, 100), m, [C('0'), C('0')], root, Repeat(NUL, 183));
    assert Back(ty) == [TypeFlag(ty)] + Repeat(NUL, 100) + m + [C('0'), C('0')] + root + root + Repeat(NUL, 183);
  }

  lemma RootPadded(root: seq<Byte>)
    requires root == Padded(Codes("root"), 32)
    ensures RootAt(root, 0)
  {
    var c := Codes("root");
    assert root[..4] == c;
    assert root[0] == root[..4][0] && root[1] == root[..4][1] && root[2] == root[..4][2] && root[3] == root[..4][3];
  }

  lemma BackSlices(a: seq<Byte>, z: seq<Byte>, m: seq<Byte>, v: seq<Byte>, r: seq<Byte>, g: seq<Byte>)
    requires |a| == 1 && |z| == 100 && |m| == 6 && |v| == 2 && |r| == 32 && |g| == 183
    ensures var h := Repeat(NUL, 156) + (a + z + m + v + r + r + g);
            && |h| == 512 && h[156] == a[0] && (forall k | 157 <= k < 257 :: h[k] == z[k - 157])
            && (forall k | 257 <= k < 263 :: h[k] == m[k - 257]) && h[263] == v[0] && h[264] == v[1]
            && (forall k | 265 <= k < 297 :: h[k] == r[k - 265]) && (forall k | 297 <= k < 329 :: h[k] == r[k - 297])
            && (forall k | 329 <= k < 512 :: h[k] == g[k - 329])
  {
  }

  /** Exactly which headers are accepted, and as what: magic, version, a checksum field that gives the sum, a
      name that ends inside its field, no prefix, and a type that is known; a regular file also needs a size
      that fits. */
  lemma ParseExact(h: seq<Byte>)
    requires |h| == 512
    ensures Parse(h) == EndOfArchive <==> forall k | 0 <= k < 512 :: h[k] == 0
    ensures Parse(h).File? <==> Acceptable(h)
    ensures Parse(h).File? ==> Parse(h).name == Stripped(CString(h[0..100])) && (Parse(h).ty.Regular? <==> h[156] == '0' as int)
    ensures Parse(h).File? ==> if h[156] == '0' as int then Reads(h[124..136], Parse(h).size) else Parse(h).size == 0
  {
    MagicIs(h);
    ChksumIs(h);
    SumReads(h, Chksum(h));
    TypeExact(h);
  }

  lemma SumReads(h: seq<Byte>, sum: nat)
    requires |h| == 512
    ensures Reads(h[148..156], sum) <==> OctalField(h[148..156]) == Some(sum)
  {
    OctalFieldIs(h[148..156]);
  }

  lemma TypeExact(h: seq<Byte>)
    requires |h| == 512
    ensures ParsedType(h) != EndOfArchive
    ensures ParsedType(h).File? <==>
            h[156] == '5' as int || (h[156] == '0' as int && exists v :: v <= 0x7FFF_FFFF && Reads(h[124..136], v))
    ensures ParsedType(h).File? ==> ParsedType(h).name == Stripped(CString(h[0..100])) && (ParsedType(h).ty.Regular? <==> h[156] == '0' as int)
    ensures ParsedType(h).File? ==> if h[156] == '0' as int then Reads(h[124..136], ParsedType(h).size) else ParsedType(h).size == 0
  {
    OctalFieldIs(h[124..136]);
    assert h[..100] == h[0..100];
  }

  ghost predicate Acceptable(h: seq<Byte>)
    requires |h| == 512
  {
    && HasMagic(h) && h[263] == '0' as int && h[264] == '0' as int
    && Reads(h[148..156], ByteSum(h[..148]) + 8 * 32 + ByteSum(h[156..]))
    && h[99] == 0 && h[345] == 0
    && (h[156] == '5' as int || (h[156] == '0' as int && exists v :: v <= 0x7FFF_FFFF && Reads(h[124..136], v)))
  }

  ghost predicate HasMagic(h: seq<Byte>)
    requires |h| == 512
  {
    && h[257] == 'u' as int && h[258] == 's' as int && h[259] == 't' as int && h[260] == 'a' as int && h[261] == 'r' as int
    && h[262] == 0
  }

  lemma MagicIs(h: seq<Byte>)
    requires |h| == 512
    ensures h[257..263] == Magic() <==> HasMagic(h)
    ensures HasMagic(h) ==> !Blank(h, 0)
  {
    var m, s := Magic(), h[257..263];
    assert m == ['u' as int, 's' as int, 't' as int, 'a' as int, 'r' as int, 0];
    assert s == [h[257], h[258], h[259], h[260], h[261], h[262]];
  }

  /** A field reads as v: one or more octal digits that denote v, then a blank or a null byte. */
  ghost predicate Reads(f: seq<Byte>, v: int) {
    v < 0x1_0000_0000 && exists n :: ReadsTo(f, v, n)
  }

  ghost predicate ReadsTo(f: seq<Byte>, v: int, n: int) {
    && 0 < n < |f| && (forall k | 0 <= k < n :: 48 <= f[k] <= 55) && (f[n] == 32 || f[n] == 0)
    && Numeral(f[..n], 8) == v
  }

  lemma OctalFieldIs(f: seq<Byte>)
    ensures forall v :: Reads(f, v) <==> v >= 0 && OctalField(f) == Some(v)
  {
    var r := OctalRun(f);
    NumeralSteps(f, r, r);
    forall v ensures Reads(f, v) <==> v >= 0 && OctalField(f) == Some(v) {
      if Reads(f, v) {
        var n :| ReadsTo(f, v, n);
        OctalRunIs(f, n);
      }
      if v >= 0 && OctalField(f) == Some(v) {
        assert ReadsTo(f, v, r);
      }
    }
  }

  // ---------------------------------------------------------------- round trip and tampering

  /** A made header parses back to the stripped name, its type and its size; a directory has size 0,
      and a negative size of a regular file is refused. */
  lemma RoundTrip(fileName: seq<Byte>, ty: FileType, size: int)
    requires NUL !in fileName && |Stripped(fileName)| < NAME_SIZE && -INT_MAX - 1 <= size <= INT_MAX
    ensures Parse(Image(Stripped(fileName), ty, size)) ==
            if ty.Directory? then File(Stripped(fileName), Directory, 0)
            else if size >= 0 then File(Stripped(fileName), Regular, size)
            else Failed(TooLarge)
  {
    StripCleans(fileName);
    NamedRoundTrip(Stripped(fileName), ty, size);
  }

  lemma NamedRoundTrip(name: seq<Byte>, ty: FileType, size: int)
    requires NUL !in name && Stripped(name) == name && |name| < NAME_SIZE && -INT_MAX - 1 <= size <= INT_MAX
    ensures Parse(Image(name, ty, size)) ==
            if ty.Directory? then File(name, Directory, 0)
            else if size >= 0 then File(name, Regular, size)
            else Failed(TooLarge)
  {
    ImageFields(name, ty, size);
    FrontFields(name, ty, size);
    BackFields(ty);
    NumbersParse(name, ty, size);
    FieldsParse(Image(name, ty, size), name, ty, Unsigned(size));
  }

  lemma NumbersParse(name: seq<Byte>, ty: FileType, size: int)
    requires |name| < NAME_SIZE && -INT_MAX - 1 <= size <= INT_MAX
    ensures OctalField(Field(OctalText(ImageSum(name, ty, size), 7))) == Some(ImageSum(name, ty, size))
    ensures OctalField(Field(OctalText(Unsigned(size), 11))) == Some(Unsigned(size))
  {
    PowersOfEight();
    OctalTextSpec(ImageSum(name, ty, size), 7);
    FieldParses(OctalText(ImageSum(name, ty, size), 7), ImageSum(name, ty, size));
    OctalTextSpec(Unsigned(size), 11);
    FieldParses(OctalText(Unsigned(size), 11), Unsigned(size));
  }

  lemma FieldsParse(h: seq<Byte>, name: seq<Byte>, ty: FileType, v: nat)
    requires |h| == HEADER_SIZE && |name| < NAME_SIZE && NUL !in name && Stripped(name) == name
    requires h[..NAME_SIZE] == Padded(name, 100) && OctalField(h[SIZE_AT..SIZE_AT + 12]) == Some(v)
    requires OctalField(h[CHKSUM_AT..CHKSUM_END]) == Some(Chksum(h)) && h[TYPE_AT] == TypeFlag(ty)
    requires h[MAGIC_AT..MAGIC_AT + 6] == Magic() && h[MAGIC_AT + 6] == h[MAGIC_AT + 7] == C('0') && h[PREFIX_AT] == NUL
    ensures Parse(h) == if ty.Directory? then File(name, Directory, 0)
                        else if v <= INT_MAX then File(name, Regular, v)
                        else Failed(TooLarge)
  {
    CStringIs(Padded(name, 100), name);
    assert h[NAME_SIZE - 1] == h[..NAME_SIZE][NAME_SIZE - 1];
  }

  /** No accepted header stays acceptable when one byte outside the checksum field changes. */
  lemma TamperingDetected(h: seq<Byte>, i: nat, b: Byte)
    requires |h| == HEADER_SIZE && Parse(h).File? && i < HEADER_SIZE && !(CHKSUM_AT <= i < CHKSUM_END) && b != h[i]
    ensures Parse(h[i := b]).Failed?
  {
    var g := h[i := b];
    ChksumChange(h, i, b, HEADER_SIZE);
    assert g[CHKSUM_AT..CHKSUM_END] == h[CHKSUM_AT..CHKSUM_END];
    StillNonzero(h, i, b);
  }

  lemma StillNonzero(h: seq<Byte>, i: nat, b: Byte)
    requires |h| == HEADER_SIZE && i < HEADER_SIZE && h[MAGIC_AT..MAGIC_AT + 6] == Magic()
    ensures !Blank(h[i := b], 0)
  {
    assert h[MAGIC_AT] == h[MAGIC_AT..MAGIC_AT + 6][0] == C('u');
    assert h[MAGIC_AT + 1] == h[MAGIC_AT..MAGIC_AT + 6][1] == C('s');
    assert h[i := b][MAGIC_AT] != NUL || h[i := b][MAGIC_AT + 1] != NUL;
  }
}
