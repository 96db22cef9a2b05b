/** Splitting a command line with strtok_r and building the first stack frame of a user process.

    See section 2.2.2 of the System V ABI, Intel386 supplement 1.1, for the frame. */
module StackImage {
  import opened Common
  import opened Bytes

  // ---------------------------------------------------------------- strtok_r

  /** Position e is the end of the token that starts at t: a delimiter or the terminator. */
  ghost predicate IsToken(text: seq<Byte>, delims: seq<Byte>, t: nat, e: nat) {
    && t < e < |text| && (forall k | t <= k < e :: text[k] !in delims && text[k] != NUL)
    && (text[e] in delims || text[e] == NUL)
  }

  ghost predicate NextToken(bytes: seq<Byte>, bytes': seq<Byte>, delims: seq<Byte>, s: nat, token: Option<nat>, save: nat, e: nat) {
    if token.None? then
      s <= save < |bytes| && bytes' == bytes && bytes[save] == NUL && forall k | s <= k < save :: bytes[k] in delims
    else
      && s <= token.value && IsToken(bytes, delims, token.value, e)
      && (forall k | s <= k < token.value :: bytes[k] in delims)
      && bytes' == bytes[e := NUL] && save == if bytes[e] == NUL then e else e + 1
  }

  /** strtok_r from position s of a terminated buffer: the next token, whose end becomes a null byte, and
      the position to go on from; or none if only delimiters are left. */
  method Strtok(buf: array<Byte>, delims: seq<Byte>, s: nat) returns (token: Option<nat>, save: nat, ghost e: nat)
    requires NUL !in delims && s < buf.Length && NUL in buf[s..]
    modifies buf
    ensures NextToken(old(buf[..]), buf[..], delims, s, token, save, e)
    ensures save < buf.Length && NUL in buf[save..]
  {
    var p := s;
    while buf[p] in delims || buf[p] == NUL
      invariant s <= p < buf.Length && NUL in buf[p..] && buf[..] == old(buf[..])
      invariant forall k | s <= k < p :: buf[k] in delims
      decreases buf.Length - p
    {
      if buf[p] == NUL {
        return None, p, p;
      }
      Later(buf[..], p);
      p := p + 1;
    }
    token := Some(p);
    while buf[p] !in delims && buf[p] != NUL
      invariant token.value <= p < buf.Length && NUL in buf[p..] && buf[..] == old(buf[..])
      invariant forall k | token.value <= k < p :: buf[k] !in delims && buf[k] != NUL
      decreases buf.Length - p
    {
      Later(buf[..], p);
      p := p + 1;
    }
    e := p;
    assert IsToken(old(buf[..]), delims, token.value, e);
    if buf[p] != NUL {
      Later(buf[..], p);
      buf[p] := NUL;
      save := p + 1;
    } else {
      save := p;
    }
    assert buf[..] == old(buf[..])[e := NUL];
    assert buf[save..] == if save == e then [NUL] + old(buf[..])[e + 1..] else old(buf[..])[save..];
  }

  lemma Later(s: seq<Byte>, p: nat)
    requires p < |s| && NUL in s[p..] && s[p] != NUL
    ensures p + 1 < |s| && NUL in s[p + 1..]
  {
    assert s[p..] == [s[p]] + s[p + 1..];
  }

  // ---------------------------------------------------------------- the tokens of a command line

  function SPACE(): Byte { C(' ') }

  /** A token starts here: not a space, and nothing but a space before it. */
  ghost predicate IsStart(text: seq<Byte>, i: nat) {
    i < |text| && text[i] != ' ' as int && (i == 0 || text[i - 1] == ' ' as int)
  }

  /** The token that starts at i: up to the next space or the end. */
  ghost function TokenAt(text: seq<Byte>, i: nat): seq<Byte>
    requires i <= |text|
    decreases |text| - i
  {
    if i == |text| || text[i] == ' ' as int then [] else [text[i]] + TokenAt(text, i + 1)
  }

  lemma TokenIs(text: seq<Byte>, i: nat, e: nat)
    requires i <= e <= |text| && (forall k | i <= k < e :: text[k] != SPACE()) && (e == |text| || text[e] == SPACE())
    ensures TokenAt(text, i) == text[i..e]
    decreases e - i
  {
    if i < e {
      TokenIs(text, i + 1, e);
      assert text[i..e] == [text[i]] + text[i + 1..e];
    }
  }

  /** The bytes from i on are that token, terminated. */
  ghost predicate Terminated(bytes: seq<Byte>, i: nat, token: seq<Byte>) {
    i + |token| < |bytes| && bytes[i..i + |token|] == token && bytes[i + |token|] == NUL
  }

  /** The token starts below n. */
  ghost function StartsBelow(text: seq<Byte>, n: nat): seq<nat> {
    if n == 0 then []
    else if IsStart(text, n - 1) then StartsBelow(text, n - 1) + [n - 1]
    else StartsBelow(text, n - 1)
  }

  /** They are exactly the token starts, in order. */
  lemma {:induction false} StartsSpec(text: seq<Byte>, n: nat)
    ensures StartsTo(text, StartsBelow(text, n), n)
  {
    if n > 0 {
      StartsSpec(text, n - 1);
      var s := StartsBelow(text, n - 1);
      assert forall k | 0 <= k < |s| :: s[k] in s;
    }
  }

  lemma {:induction false} NoStarts(text: seq<Byte>, a: nat, b: nat)
    requires a <= b && forall i | a <= i < b :: !IsStart(text, i)
    ensures StartsBelow(text, b) == StartsBelow(text, a)
  {
    if a < b {
      NoStarts(text, a, b - 1);
    }
  }

  /** The positions in `starts` are exactly the token starts below n, in order. */
  ghost predicate StartsTo(text: seq<Byte>, starts: seq<nat>, n: nat) {
    && (forall k, l | 0 <= k < l < |starts| :: starts[k] < starts[l])
    && (forall i: nat :: i in starts <==> i < n && IsStart(text, i))
  }

  /** Each of them has its token behind it, terminated. */
  ghost predicate AllTerminated(text: seq<Byte>, bytes: seq<Byte>, starts: seq<nat>, n: nat) {
    forall i | i in starts :: i <= |text| && i + |TokenAt(text, i)| < n <= |bytes| && Terminated(bytes, i, TokenAt(text, i))
  }

  /** What holds between two calls of strtok_r, with s the saved position. */
  ghost predicate Splitting(text: seq<Byte>, bytes: seq<Byte>, starts: seq<nat>, s: nat) {
    && NUL !in text && s <= |text| < |bytes|
    && (forall k | s <= k < |text| :: bytes[k] == text[k]) && bytes[|text|] == NUL
    && (s == 0 || s == |text| || text[s - 1] == SPACE())
    && starts == StartsBelow(text, s) && AllTerminated(text, bytes, starts, s + 1)
  }

  lemma TokenInText(text: seq<Byte>, bytes: seq<Byte>, starts: seq<nat>, s: nat, t: nat, e: nat)
    requires Splitting(text, bytes, starts, s) && s <= t && IsToken(bytes, [SPACE()], t, e)
    requires forall k | s <= k < t :: bytes[k] in [SPACE()]
    ensures e <= |text| && (bytes[e] == NUL <==> e == |text|)
    ensures IsStart(text, t) && (forall k | s <= k < t :: text[k] == SPACE()) && (forall k | t <= k < e :: text[k] != SPACE())
    ensures TokenAt(text, t) == text[t..e]
  {
    assert forall k | 0 <= k < |text| :: text[k] in text;
    assert bytes[|text|] != SPACE();
    assert t <= |text|;
    assert e <= |text|;
    TokenIs(text, t, e);
  }

  lemma NextStart(text: seq<Byte>, s: nat, t: nat, e: nat, s': nat)
    requires s <= t < e <= |text| && IsStart(text, t)
    requires (forall k | s <= k < t :: text[k] == SPACE()) && (forall k | t <= k < e :: text[k] != SPACE())
    requires if e == |text| then s' == e else s' == e + 1 && text[e] == SPACE()
    ensures StartsBelow(text, s') == StartsBelow(text, s) + [t]
  {
    NoStarts(text, s, t);
    NoStarts(text, t + 1, s');
  }

  lemma KeepTerminated(text: seq<Byte>, bytes: seq<Byte>, starts: seq<nat>, n: nat, t: nat, e: nat, n': nat)
    requires AllTerminated(text, bytes, starts, n) && t <= e < |bytes| && n <= n' <= |bytes| && e < n' && t <= |text|
    requires bytes[e] == NUL || n <= e + 1
    requires bytes[e] != NUL ==> n <= e + 1 && forall i | i in starts :: i + |TokenAt(text, i)| < e
    requires TokenAt(text, t) == bytes[t..e]
    ensures AllTerminated(text, bytes[e := NUL], starts + [t], n')
  {
    forall i | i in starts + [t]
      ensures i <= |text| && i + |TokenAt(text, i)| < n' && Terminated(bytes[e := NUL], i, TokenAt(text, i))
    {
      if i in starts {
        assert Terminated(bytes, i, TokenAt(text, i));
        var end := i + |TokenAt(text, i)|;
        assert bytes[e] != NUL ==> bytes[e := NUL][i..end] == bytes[i..end];
        assert bytes[e] == NUL ==> bytes[e := NUL] == bytes;
      } else {
        assert bytes[e := NUL][t..e] == bytes[t..e];
      }
    }
  }

  lemma SplitStep(text: seq<Byte>, bytes: seq<Byte>, bytes': seq<Byte>, starts: seq<nat>, s: nat, t: nat, e: nat, s': nat)
    requires Splitting(text, bytes, starts, s) && NextToken(bytes, bytes', [SPACE()], s, Some(t), s', e)
    ensures Splitting(text, bytes', starts + [t], s') && s < s' && bytes'[|text|..] == bytes[|text|..]
  {
    TokenInText(text, bytes, starts, s, t, e);
    NextStart(text, s, t, e, s');
    assert text[t..e] == bytes[t..e];
    KeepTerminated(text, bytes, starts, s + 1, t, e, s' + 1);
  }

  lemma SplitEnd(text: seq<Byte>, bytes: seq<Byte>, bytes': seq<Byte>, starts: seq<nat>, s: nat, save: nat, e: nat)
    requires Splitting(text, bytes, starts, s) && NextToken(bytes, bytes', [SPACE()], s, None, save, e)
    ensures starts == StartsBelow(text, |text|) && AllTerminated(text, bytes', starts, |text| + 1)
  {
    assert forall k | 0 <= k < |text| :: text[k] in text;
    assert save == |text|;
    NoStarts(text, s, save);
  }

  lemma SplitBegin(text: seq<Byte>, bytes: seq<Byte>)
    requires NUL !in text && |text| < |bytes| && bytes[..|text|] == text && bytes[|text|] == NUL
    ensures Splitting(text, bytes, [], 0)
  {
    assert forall k | 0 <= k < |text| :: bytes[..|text|][k] == text[k];
  }

  ghost function Starts(text: seq<Byte>): seq<nat> {
    StartsBelow(text, |text|)
  }

  /** The loop of start_process that collects the arguments: exactly the token starts of the command
      line, each token terminated in place. */
  method Tokenize(buf: array<Byte>, ghost text: seq<Byte>) returns (starts: seq<nat>)
    requires NUL !in text && |text| < buf.Length && buf[..|text|] == text && buf[|text|] == NUL
    modifies buf
    ensures starts == Starts(text) && AllTerminated(text, buf[..], starts, |text| + 1)
    ensures buf[|text|..] == old(buf[|text|..])
  {
    starts := [];
    ghost var e: nat, s: nat, bytes: seq<Byte> := 0, 0, buf[..];
    assert buf[..|text|] == bytes[..|text|] && buf[|text|..] == bytes[|text|..];
    SplitBegin(text, bytes);
    assert buf[0..][|text|] == NUL;
    var token: Option<nat>, save: nat;
    token, save, e := Strtok(buf, [SPACE()], 0);
    while token.Some?
      invariant Splitting(text, bytes, starts, s) && save < buf.Length && NUL in buf[save..] && |bytes| == buf.Length
      invariant bytes[|text|..] == old(buf[|text|..]) && NextToken(bytes, buf[..], [SPACE()], s, token, save, e)
      decreases |text| - s, token.Some?
    {
      SplitStep(text, bytes, buf[..], starts, s, token.value, e, save);
      starts := starts + [token.value];
      s := save;
      bytes := buf[..];
      token, save, e := Strtok(buf, [SPACE()], save);
    }
    SplitEnd(text, bytes, buf[..], starts, s, save, e);
    assert buf[|text|..] == buf[..][|text|..];
  }

  // ---------------------------------------------------------------- the frame

  const PHYS_BASE: nat := 0xC000_0000
  const STACK: nat := PHYS_BASE - 4096
  const MAX_ARGS: nat := 128

  type Word = w: nat | w < 0x1_0000_0000

  /** A word as it lies in memory, low byte first. */
  function Le(w: Word): (s: seq<Byte>)
    ensures |s| == 4
  {
    [w % 256, w / 256 % 256, w / 65536 % 256, w / 16777216]
  }

  ghost function FromLe(s: seq<Byte>): nat
    requires |s| == 4
  {
    (s[0] as int) + 256 * (s[1] as int) + 65536 * (s[2] as int) + 16777216 * (s[3] as int)
  }

  lemma LeRound(w: Word)
    ensures FromLe(Le(w)) == w
  {
    assert w / 65536 == w / 256 / 256 && w / 16777216 == w / 65536 / 256;
  }

  function Vector(ws: seq<Word>): (s: seq<Byte>)
    ensures |s| == 4 * |ws|
  {
    if ws == [] then [] else Le(ws[0]) + Vector(ws[1..])
  }

  lemma {:induction false} VectorAt(ws: seq<Word>, k: nat)
    requires k < |ws|
    ensures Vector(ws)[4 * k..4 * k + 4] == Le(ws[k])
  {
    if k > 0 {
      VectorAt(ws[1..], k - 1);
      assert Vector(ws)[4 * k..4 * k + 4] == Vector(ws[1..])[4 * (k - 1)..4 * (k - 1) + 4];
    }
  }

  /** Bytes below the stack pointer; what was above stays. */
  method Push(stack: array<Byte>, esp: nat, bytes: seq<Byte>) returns (top: nat)
    requires stack.Length == 4096 && STACK + |bytes| <= esp <= PHYS_BASE
    modifies stack
    ensures top == esp - |bytes| && Above(stack[..], top) == bytes + Above(old(stack[..]), esp)
  {
    top := esp - |bytes|;
    Store(stack, top - STACK, bytes);
  }

  /** The bytes of the stack page from an address up. */
  ghost function Above(stack: seq<Byte>, esp: nat): (s: seq<Byte>)
    requires |stack| == 4096 && STACK <= esp <= PHYS_BASE
    ensures |s| == PHYS_BASE - esp
  {
    stack[esp - STACK..]
  }

  function Padding(fnSz: nat, argc: nat): (ep: nat)
    ensures 1 <= ep <= 16
  {
    16 - (fnSz + (argc + 3) * 4) % 16
  }

  ghost function FrameSize(text: seq<Byte>): nat {
    var fnSz, argc := |text| + 1, |Starts(text)|;
    fnSz + Padding(fnSz, argc) + (argc + 4) * 4
  }

  /** The word in the stack page at an address. */
  ghost function WordAt(stack: seq<Byte>, addr: nat): nat
    requires |stack| == 4096 && STACK <= addr <= PHYS_BASE - 4
  {
    FromLe(stack[addr - STACK..addr - STACK + 4])
  }

  /** What a user program finds on entry. */
  ghost predicate ProperFrame(stack: seq<Byte>, esp: nat, text: seq<Byte>) {
    var starts := Starts(text);
    var argc := |starts|;
    && |stack| == 4096 && STACK <= esp && esp + 16 + 4 * argc <= PHYS_BASE
    && (esp + 4) % 16 == 0
    && WordAt(stack, esp) == 0 && WordAt(stack, esp + 4) == argc && WordAt(stack, esp + 8) == esp + 12
    && (forall k | 0 <= k < argc :: ArgumentAt(stack, esp, text, k))
    && WordAt(stack, esp + 12 + 4 * argc) == 0
  }

  /** argv[k] points to a terminated copy of the k-th token. */
  ghost predicate ArgumentAt(stack: seq<Byte>, esp: nat, text: seq<Byte>, k: nat)
    requires |stack| == 4096 && STACK <= esp && esp + 16 + 4 * k <= PHYS_BASE && k < |Starts(text)|
  {
    var p := WordAt(stack, esp + 12 + 4 * k);
    p >= STACK && Starts(text)[k] <= |text| && Terminated(stack, p - STACK, TokenAt(text, Starts(text)[k]))
  }

  /** The argument vector: a pointer for each token and a null pointer. */
  function Pointers(base: nat, starts: seq<nat>): (ws: seq<Word>)
    requires forall i | i in starts :: base + i < PHYS_BASE
    ensures |ws| == |starts| + 1 && ws[|starts|] == 0 && forall k | 0 <= k < |starts| :: ws[k] == base + starts[k]
  {
    if starts == [] then [0]
    else
      assert starts[0] in starts && forall i | i in starts[1..] :: i in starts;
      [base + starts[0]] + Pointers(base, starts[1..])
  }

  /** The frame from the stack pointer up: return address, argc, argv, the vector, padding, the strings. */
  function Frame(argc: Word, argv: Word, ws: seq<Word>, ep: nat, bytes: seq<Byte>): seq<Byte> {
    Le(0) + (Le(argc) + (Le(argv) + (Vector(ws) + (Repeat(NUL, ep) + bytes))))
  }

  lemma FrameWords(argc: Word, argv: Word, ws: seq<Word>, ep: nat, bytes: seq<Byte>)
    ensures var f := Frame(argc, argv, ws, ep, bytes);
            && |f| == 12 + 4 * |ws| + ep + |bytes|
            && f[..4] == Le(0) && f[4..8] == Le(argc) && f[8..12] == Le(argv)
            && (forall k | 0 <= k < |ws| :: f[12 + 4 * k..16 + 4 * k] == Le(ws[k]))
            && f[12 + 4 * |ws| + ep..] == bytes
  {
    var f, v, rest := Frame(argc, argv, ws, ep, bytes), Vector(ws), Repeat(NUL, ep) + bytes;
    FrameParts(Le(0), Le(argc), Le(argv), v, rest);
    assert rest[ep..] == bytes;
    assert f[12 + |v|..][ep..] == f[12 + |v| + ep..];
    forall k | 0 <= k < |ws| ensures f[12 + 4 * k..16 + 4 * k] == Le(ws[k]) {
      VectorAt(ws, k);
      assert f[12 + 4 * k..16 + 4 * k] == f[12..12 + |v|][4 * k..4 * k + 4];
    }
  }

  lemma FrameParts(a: seq<Byte>, b: seq<Byte>, c: seq<Byte>, v: seq<Byte>, rest: seq<Byte>)
    requires |a| == |b| == |c| == 4
    ensures var f := a + (b + (c + (v + rest)));
            f[..4] == a && f[4..8] == b && f[8..12] == c && f[12..12 + |v|] == v && f[12 + |v|..] == rest
  {
  }

  lemma ReadWord(stack: seq<Byte>, esp: nat, f: seq<Byte>, at: nat, w: Word)
    requires |stack| == 4096 && STACK <= esp <= PHYS_BASE && f == Above(stack, esp) && at + 4 <= |f| && f[at..at + 4] == Le(w)
    ensures WordAt(stack, esp + at) == w
  {
    assert stack[esp + at - STACK..esp + at - STACK + 4] == f[at..at + 4];
    LeRound(w);
  }

  lemma ReadString(stack: seq<Byte>, n: nat, bytes: seq<Byte>, i: nat, token: seq<Byte>)
    requires n <= |stack| && stack[n..] == bytes && Terminated(bytes, i, token)
    ensures Terminated(stack, n + i, token)
  {
    assert stack[n + i..n + i + |token|] == bytes[i..i + |token|];
    assert stack[n + i + |token|] == bytes[i + |token|];
  }

  lemma Aligned(fnSz: nat, argc: nat)
    ensures (fnSz + Padding(fnSz, argc) + (argc + 3) * 4) % 16 == 0
  {
  }

  /** Reading back a frame: the words, the vector and the strings. */
  lemma FrameReads(stack: seq<Byte>, esp: nat, argc: Word, argv: Word, ws: seq<Word>, ep: nat, bytes: seq<Byte>)
    requires |stack| == 4096 && STACK <= esp <= PHYS_BASE && Above(stack, esp) == Frame(argc, argv, ws, ep, bytes)
    ensures PHYS_BASE - esp == 12 + 4 * |ws| + ep + |bytes|
    ensures WordAt(stack, esp) == 0 && WordAt(stack, esp + 4) == argc && WordAt(stack, esp + 8) == argv
    ensures forall k | 0 <= k < |ws| :: WordAt(stack, esp + 12 + 4 * k) == ws[k]
    ensures Above(stack, PHYS_BASE - |bytes|) == bytes
  {
    var f := Frame(argc, argv, ws, ep, bytes);
    FrameWords(argc, argv, ws, ep, bytes);
    ReadWord(stack, esp, f, 0, 0);
    ReadWord(stack, esp, f, 4, argc);
    ReadWord(stack, esp, f, 8, argv);
    forall k | 0 <= k < |ws| ensures WordAt(stack, esp + 12 + 4 * k) == ws[k] {
      ReadWord(stack, esp, f, 12 + 4 * k, ws[k]);
    }
    assert Above(stack, PHYS_BASE - |bytes|) == f[12 + 4 * |ws| + ep..];
  }

  /** A frame laid out this way is what the program expects. */
  lemma FrameProper(stack: seq<Byte>, esp: nat, text: seq<Byte>, ws: seq<Word>, ep: nat, bytes: seq<Byte>)
    requires |stack| == 4096 && STACK <= esp <= PHYS_BASE && |bytes| == |text| + 1
    requires AllTerminated(text, bytes, Starts(text), |text| + 1)
    requires |Starts(text)| < MAX_ARGS && |ws| == |Starts(text)| + 1 && ws[|ws| - 1] == 0
    requires forall k | 0 <= k < |Starts(text)| :: ws[k] == PHYS_BASE - |bytes| + Starts(text)[k]
    requires ep == Padding(|bytes|, |Starts(text)|)
    requires Above(stack, esp) == Frame(|Starts(text)|, esp + 12, ws, ep, bytes)
    ensures ProperFrame(stack, esp, text)
  {
    var argc := |Starts(text)|;
    FrameReads(stack, esp, argc, esp + 12, ws, ep, bytes);
    EntryAligned(|bytes|, argc, ep, esp);
    forall k | 0 <= k < argc ensures ArgumentAt(stack, esp, text, k) {
      ArgumentRead(stack, esp, text, bytes, k);
    }
  }

  lemma ArgumentRead(stack: seq<Byte>, esp: nat, text: seq<Byte>, bytes: seq<Byte>, k: nat)
    requires |stack| == 4096 && STACK <= esp && esp + 16 + 4 * k <= PHYS_BASE && k < |Starts(text)| && |bytes| <= 4096
    requires AllTerminated(text, bytes, Starts(text), |text| + 1) && Above(stack, PHYS_BASE - |bytes|) == bytes
    requires WordAt(stack, esp + 12 + 4 * k) == PHYS_BASE - |bytes| + Starts(text)[k]
    ensures ArgumentAt(stack, esp, text, k)
  {
    var i := Starts(text)[k];
    assert i in Starts(text);
    ReadString(stack, 4096 - |bytes|, bytes, i, TokenAt(text, i));
  }

  lemma EntryAligned(fnSz: nat, argc: nat, ep: nat, esp: nat)
    requires ep == Padding(fnSz, argc) && PHYS_BASE - esp == 12 + 4 * (argc + 1) + ep + fnSz
    ensures (esp + 4) % 16 == 0
  {
    Aligned(fnSz, argc);
  }

  method Strlen(buf: array<Byte>, ghost text: seq<Byte>) returns (n: nat)
    requires NUL !in text && |text| < buf.Length && buf[..|text|] == text && buf[|text|] == NUL
    ensures n == |text|
  {
    n := 0;
    assert forall k | 0 <= k < |text| :: buf[k] == text[k] && text[k] in text;
    while buf[n] != NUL
      invariant n <= |text|
      decreases |text| - n
    {
      n := n + 1;
    }
  }

  /** start_process, from the command line in its page to the stack pointer at entry: argc and argv are
      right, argv[argc] is null, and the stack is aligned. */
  method StartProcess(page: array<Byte>, ghost text: seq<Byte>, stack: array<Byte>) returns (esp: nat)
    requires page != stack && stack.Length == 4096
    requires NUL !in text && |text| < page.Length && page[..|text|] == text && page[|text|] == NUL
    requires |Starts(text)| < MAX_ARGS && FrameSize(text) <= 4096
    modifies page, stack
    ensures ProperFrame(stack[..], esp, text)
  {
    var fnSz := Strlen(page, text);
    fnSz := fnSz + 1;
    var starts := Tokenize(page, text);
    var argc := |starts|;
    StartsSpec(text, |text|);
    var argv := Pointers(PHYS_BASE - fnSz, starts);
    esp := BuildFrame(stack, page[..fnSz], argc, argv);
    TerminatedPrefix(text, page[..], starts, fnSz);
    assert page[..fnSz] == page[..][..fnSz];
    FrameProper(stack[..], esp, text, argv, Padding(fnSz, argc), page[..fnSz]);
  }

  lemma TerminatedPrefix(text: seq<Byte>, bytes: seq<Byte>, starts: seq<nat>, n: nat)
    requires n <= |bytes| && AllTerminated(text, bytes, starts, n)
    ensures AllTerminated(text, bytes[..n], starts, n)
  {
    forall i | i in starts ensures Terminated(bytes[..n], i, TokenAt(text, i)) {
      assert Terminated(bytes, i, TokenAt(text, i));
      var end := i + |TokenAt(text, i)|;
      assert bytes[..n][i..end] == bytes[i..end];
    }
  }

  method BuildFrame(stack: array<Byte>, bytes: seq<Byte>, argc: nat, argv: seq<Word>) returns (esp: nat)
    requires stack.Length == 4096 && argc < MAX_ARGS && |argv| == argc + 1
    requires |bytes| + Padding(|bytes|, argc) + (argc + 4) * 4 <= 4096
    modifies stack
    ensures STACK <= esp <= PHYS_BASE
    ensures Above(stack[..], esp) == Frame(argc, esp + 12, argv, Padding(|bytes|, argc), bytes)
  {
    var ep := 16 - (|bytes| + (argc + 3) * 4) % 16;
    esp := PushStrings(stack, bytes, ep);
    esp := Push(stack, esp, Vector(argv));
    esp := PushWords(stack, esp, argc);
  }

  method PushStrings(stack: array<Byte>, bytes: seq<Byte>, ep: nat) returns (esp: nat)
    requires stack.Length == 4096 && |bytes| + ep <= 4096
    modifies stack
    ensures esp == PHYS_BASE - |bytes| - ep && Above(stack[..], esp) == Repeat(NUL, ep) + bytes
  {
    esp := Push(stack, PHYS_BASE, bytes);
    assert Above(stack[..], esp) == bytes;
    esp := Push(stack, esp, Repeat(NUL, ep));
  }

  method PushWords(stack: array<Byte>, argv: nat, argc: nat) returns (esp: nat)
    requires stack.Length == 4096 && STACK + 12 <= argv <= PHYS_BASE && argc < MAX_ARGS
    modifies stack
    ensures esp == argv - 12 && Above(stack[..], esp) == Le(0) + (Le(argc) + (Le(argv) + Above(old(stack[..]), argv)))
  {
    esp := Push(stack, argv, Le(argv));
    esp := Push(stack, esp, Le(argc));
    esp := Push(stack, esp, Le(0));
  }
}
