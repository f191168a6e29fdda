/** The formatter that builds the command in an sds string. It announces each length
    with a 32-bit directive, so it agrees with the other formatter only up to there. */
module CommandSds {
  import opened Bytes
  import opened Decimal
  import opened NumberText
  import opened Sds
  import opened Command

  const WORD := 0x1_0000_0000
  /** "*%i\r\n" and "$%u\r\n". */
  const COUNT_FORMAT: bytes := [STAR, PERCENT, 105, CR, LF]
  const LENGTH_FORMAT: bytes := [DOLLAR, PERCENT, 117, CR, LF]

  function SdsText(arg: bytes): bytes {
    [DOLLAR] + Dec(|arg| % WORD) + CRLF + arg + CRLF
  }

  /** What is in the string once arguments 0 to j - 1 have been appended. */
  function SdsPartial(argv: seq<bytes>, j: nat): bytes
    requires j <= |argv|
  {
    if j == 0 then Header(|argv|) else SdsPartial(argv, j - 1) + SdsText(argv[j - 1])
  }

  function EncodeSds(argv: seq<bytes>): bytes {
    SdsPartial(argv, |argv|)
  }

  lemma {:induction false} SdsPrefix(argv: seq<bytes>, j: nat)
    requires j <= |argv|
    ensures SdsPartial(argv, j) <= EncodeSds(argv)
    decreases |argv| - j
  {
    if j < |argv| {
      SdsPrefix(argv, j + 1);
    }
  }

  lemma SameText(arg: bytes)
    requires |arg| < WORD
    ensures SdsText(arg) == BulkText(arg)
  {
  }

  /** The two formatters agree as long as all lengths so far fit 32 bits. */
  lemma {:induction false} SameSoFar(argv: seq<bytes>, j: nat)
    requires j <= |argv| && forall i :: 0 <= i < j ==> |argv[i]| < WORD
    ensures SdsPartial(argv, j) == Partial(argv, j)
  {
    if j > 0 {
      SameSoFar(argv, j - 1);
      PartialStep(argv, j - 1);
      SameText(argv[j - 1]);
    } else {
      assert BulkTexts(argv[..0]) == [];
    }
  }

  /** The length that is announced for an argument can be read off the bytes. */
  lemma AnnouncedLength(before: bytes, n: nat, arg: bytes, whole: bytes)
    requires before + ([DOLLAR] + Dec(n) + CRLF + arg + CRLF) <= whole
    ensures |before| < |whole| && CR in whole[|before| + 1..]
    ensures ReadLongLong(whole[|before| + 1..]) == n
  {
    var text := [DOLLAR] + Dec(n) + CRLF + arg + CRLF;
    var tail := arg + CRLF + whole[|before| + |text|..];
    assert whole == before + text + whole[|before| + |text|..];
    assert whole[|before| + 1..] == DecInt(n) + CRLF + tail;
    ReadOfDec(n, tail);
  }

  /** They part at the first argument whose length does not. */
  lemma PartAt(argv: seq<bytes>, j: nat)
    requires j < |argv| && |argv[j]| >= WORD
    requires forall i :: 0 <= i < j ==> |argv[i]| < WORD
    ensures EncodeSds(argv) != Encode(argv)
  {
    SameSoFar(argv, j);
    PartialStep(argv, j);
    SdsPrefix(argv, j + 1);
    PartialPrefix(argv, j + 1);
    var p, arg := Partial(argv, j), argv[j];
    AnnouncedLength(p, |arg| % WORD, arg, EncodeSds(argv));
    AnnouncedLength(p, |arg|, arg, Encode(argv));
  }

  lemma FirstLong(argv: seq<bytes>, from: nat) returns (j: nat)
    requires exists i :: from <= i < |argv| && |argv[i]| >= WORD
    requires forall i :: 0 <= i < from ==> |argv[i]| < WORD
    ensures j < |argv| && |argv[j]| >= WORD && forall i :: 0 <= i < j ==> |argv[i]| < WORD
    decreases |argv| - from
  {
    if |argv[from]| >= WORD {
      return from;
    }
    j := FirstLong(argv, from + 1);
  }

  /** Exactly the commands whose argument lengths are below 2^32 come out the same. */
  lemma SameBytesIff(argv: seq<bytes>)
    ensures EncodeSds(argv) == Encode(argv) <==> forall i :: 0 <= i < |argv| ==> |argv[i]| < WORD
  {
    if forall i :: 0 <= i < |argv| ==> |argv[i]| < WORD {
      SameSoFar(argv, |argv|);
    } else {
      var j := FirstLong(argv, 0);
      PartAt(argv, j);
    }
  }

  /** A line format c %d CR LF prints its one number between c and the line end. */
  lemma LineFormat(c: byte, d: byte, arg: FmtArg)
    requires c != PERCENT && c != NUL && Takes(d) && Suits(d, arg)
    ensures FmtOk([c, PERCENT, d, CR, LF], [arg])
    ensures FmtText([c, PERCENT, d, CR, LF], [arg]) == [c] + Printed(d, arg) + CRLF
  {
    var none: seq<FmtArg>, empty: bytes, lf: bytes := [], [], [LF];
    assert [arg][1..] == none;
    assert lf[1..] == empty && CRLF[1..] == lf;
    assert FmtOk(empty, none) && FmtText(empty, none) == empty;
    assert FmtOk(lf, none) && FmtText(lf, none) == lf;
    assert FmtOk(CRLF, none) && FmtText(CRLF, none) == CRLF;
    var directive := [PERCENT, d, CR, LF];
    assert directive[2..] == CRLF;
    assert [c, PERCENT, d, CR, LF][1..] == directive;
    assert FmtOk(directive, [arg]) && FmtText(directive, [arg]) == Printed(d, arg) + CRLF;
  }

  lemma Shorter(v: nat, w: nat)
    requires w <= v
    ensures |Dec(w)| <= |Dec(v)|
  {
  }

  lemma {:induction false} SdsSize(argv: seq<bytes>, j: nat)
    requires j <= |argv|
    ensures |SdsPartial(argv, j)| <= |Partial(argv, j)|
    ensures |Partial(argv, j)| <= |Encode(argv)|
  {
    PartialPrefix(argv, j);
    if j > 0 {
      SdsSize(argv, j - 1);
      PartialStep(argv, j - 1);
      Shorter(|argv[j - 1]|, |argv[j - 1]| % WORD);
    } else {
      assert BulkTexts(argv[..0]) == [];
    }
  }

  // ------------------------------------------------------------------------
  // The size that is announced

  /** The lengths that have as many digits when cut to 32 bits: those below 2^32, and those
      of ten digits whose lower 32 bits make ten digits as well. */
  predicate KeepsDigits(n: nat) {
    n < WORD || (n < 10_000_000_000 && n % WORD >= 1_000_000_000)
  }

  lemma EightDigits(v: nat)
    requires v >= 100_000_000
    ensures |Dec(v)| == 8 + |Dec(v / 100_000_000)|
  {
    FourDigits(v);
    FourDigits(v / 10000);
    assert v / 10000 / 10000 == v / 100_000_000;
  }

  lemma TenDigits(v: nat)
    ensures |Dec(v)| < 10 <==> v < 1_000_000_000
    ensures |Dec(v)| <= 10 <==> v < 10_000_000_000
  {
    if v >= 100_000_000 {
      EightDigits(v);
      var w := v / 100_000_000;
      assert |Dec(w)| == if w < 10 then 1 else 1 + |Dec(w / 10)|;
    } else {
      Shorter(100_000_000, v);
      EightDigits(100_000_000);
    }
  }

  lemma KeepsDigitsIff(n: nat)
    ensures |Dec(n % WORD)| == |Dec(n)| <==> KeepsDigits(n)
  {
    TenDigits(n);
    TenDigits(n % WORD);
  }

  lemma TextSize(arg: bytes)
    ensures |SdsText(arg)| <= |BulkText(arg)| && (|SdsText(arg)| == |BulkText(arg)| <==> KeepsDigits(|arg|))
  {
    Shorter(|arg|, |arg| % WORD);
    KeepsDigitsIff(|arg|);
  }

  /** The announced size is the size of the result exactly if every length keeps its
      number of digits. */
  lemma {:induction false} SizeSoFar(argv: seq<bytes>, j: nat)
    requires j <= |argv|
    ensures |SdsPartial(argv, j)| <= |Partial(argv, j)|
    ensures |SdsPartial(argv, j)| == |Partial(argv, j)| <==> forall i :: 0 <= i < j ==> KeepsDigits(|argv[i]|)
  {
    SdsSize(argv, j);
    if j > 0 {
      SizeSoFar(argv, j - 1);
      PartialStep(argv, j - 1);
      TextSize(argv[j - 1]);
    } else {
      assert BulkTexts(argv[..0]) == [];
    }
  }

  lemma SameSizeIff(argv: seq<bytes>)
    ensures |EncodeSds(argv)| == |Encode(argv)| <==> forall i :: 0 <= i < |argv| ==> KeepsDigits(|argv[i]|)
  {
    SizeSoFar(argv, |argv|);
  }

  /** The shortest argument that goes wrong: its length is announced as 0, nine digits
      short. */
  lemma FirstFailure()
    ensures var argv := [seq(WORD, _ => NUL)];
      EncodeSds(argv) != Encode(argv) && |EncodeSds(argv)| != |Encode(argv)|
  {
    var argv: seq<bytes> := [seq(WORD, _ => NUL)];
    assert |argv[0]| == WORD && !KeepsDigits(|argv[0]|);
    SameSizeIff(argv);
  }

  /** A string with room for the command, and its header. */
  method OpenCommand(argv: seq<bytes>, totlen: nat) returns (cmd: Sds)
    requires |argv| < 0x8000_0000 && totlen == |Encode(argv)|
    requires 2 * |Encode(argv)| + 2 * MAX_PREALLOC < SIZE_LIMIT
    ensures fresh(cmd) && fresh(cmd.buf) && cmd.Valid() && cmd.Content() == SdsPartial(argv, 0)
  {
    cmd := new Sds([]);
    cmd.MakeRoomFor(totlen);
    LineFormat(STAR, 105, Num(|argv|));
    cmd.CatFmt(COUNT_FORMAT, [Num(|argv|)]);
  }

  lemma Joined(before: bytes, head: bytes, arg: bytes)
    ensures before + head + arg + CRLF == before + (head + arg + CRLF)
  {
  }

  /** Append argument j with its length and line ends. */
  method AppendBulk(cmd: Sds, argv: seq<bytes>, j: nat)
    requires j < |argv| && 2 * |Encode(argv)| + 2 * MAX_PREALLOC < SIZE_LIMIT
    requires cmd.Valid() && cmd.Content() == SdsPartial(argv, j)
    modifies cmd, cmd.buf
    ensures cmd.Valid() && cmd.Content() == SdsPartial(argv, j + 1)
    ensures cmd.buf == old(cmd.buf) || fresh(cmd.buf)
  {
    var arg := argv[j];
    SdsSize(argv, j + 1);
    LineFormat(DOLLAR, 117, Num(|arg|));
    ghost var before, head := cmd.Content(), [DOLLAR] + Printed(117, Num(|arg|)) + CRLF;
    Joined(before, head, arg);
    cmd.CatFmt(LENGTH_FORMAT, [Num(|arg|)]);
    cmd.CatLen(arg);
    cmd.CatLen(CRLF);
  }

  /** `redisFormatSdsCommandArgv`; `exact` is the assertion that the announced size is
      the size of the result: it holds exactly if all lengths keep their digits. */
  method FormatSdsCommandArgv(argv: seq<bytes>) returns (cmd: Sds, totlen: nat, exact: bool)
    requires |argv| < 0x8000_0000
    requires 2 * |Encode(argv)| + 2 * MAX_PREALLOC < SIZE_LIMIT
    ensures fresh(cmd) && cmd.Valid() && cmd.Content() == EncodeSds(argv)
    ensures totlen == |Encode(argv)|
    ensures exact <==> forall i :: 0 <= i < |argv| ==> KeepsDigits(|argv[i]|)
  {
    totlen := TotalLength(argv);
    cmd := OpenCommand(argv, totlen);
    for j := 0 to |argv|
      invariant fresh(cmd) && fresh(cmd.buf) && cmd.Valid() && cmd.Content() == SdsPartial(argv, j)
    {
      AppendBulk(cmd, argv, j);
    }
    exact := cmd.Len() == totlen;
    SameSizeIff(argv);
  }
}
