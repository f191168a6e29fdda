/** Formatting a command from a format string: the format is cut into words, and the
    interpolated values never move a word boundary. */
module CommandFormat {
  import opened Bytes
  import opened NumberText
  import opened Command

  /** What one directive or character of a format means: a `%b` comes with its length, while
      a `%s` is a C string. */
  datatype Sym = Char(c: byte) | Gap | Slot(counted: bool)

  /** Formats made of plain characters, %s, %b, %% and a lone % at the very end; a format
      is a C string and has no NUL. */
  predicate Supported(format: bytes) {
    if format == [] then true
    else if format[0] == PERCENT && |format| > 1 then
      format[1] in {115, 98, PERCENT} && Supported(format[2..])
    else format[0] != NUL && Supported(format[1..])
  }

  function Symbols(format: bytes): seq<Sym>
    requires Supported(format)
  {
    if format == [] then []
    else if format[0] == PERCENT && |format| > 1 then
      [if format[1] == PERCENT then Char(PERCENT) else Slot(format[1] == 98)] + Symbols(format[2..])
    else [if format[0] == SPACE then Gap else Char(format[0])] + Symbols(format[1..])
  }

  /** Number of symbols before the first gap. */
  function WordLength(syms: seq<Sym>): (n: nat)
    ensures n <= |syms|
    ensures forall i :: 0 <= i < n ==> syms[i] != Gap
    ensures n < |syms| ==> syms[n] == Gap
  {
    if syms == [] || syms[0] == Gap then 0 else 1 + WordLength(syms[1..])
  }

  /** The words of a format: its maximal runs without a gap. The values to be filled in
      play no part in this. */
  function Words(syms: seq<Sym>): seq<seq<Sym>> {
    if syms == [] then []
    else if syms[0] == Gap then Words(syms[1..])
    else [syms[..WordLength(syms)]] + Words(syms[WordLength(syms)..])
  }

  /** How many values a stretch of format takes. */
  function Slots(syms: seq<Sym>): nat {
    if syms == [] then 0 else (if syms[0].Slot? then 1 else 0) + Slots(syms[1..])
  }

  /** A C string ends before its first NUL. */
  function CString(v: bytes): (s: bytes)
    ensures s <= v && NUL !in s && (|s| < |v| ==> v[|s|] == NUL)
  {
    if v == [] || v[0] == NUL then [] else [v[0]] + CString(v[1..])
  }

  /** What is filled in for a value. */
  function Inserted(counted: bool, v: bytes): bytes {
    if counted then v else CString(v)
  }

  /** A word with its values filled in. */
  function Fill(word: seq<Sym>, values: seq<bytes>): bytes
    requires Slots(word) <= |values|
  {
    if word == [] then []
    else
      match word[0]
      case Slot(counted) => Inserted(counted, values[0]) + Fill(word[1..], values[1..])
      case Char(c) => [c] + Fill(word[1..], values)
      case Gap => Fill(word[1..], values)
  }

  function TotalSlots(words: seq<seq<Sym>>): nat {
    if words == [] then 0 else Slots(words[0]) + TotalSlots(words[1..])
  }

  function FillAll(words: seq<seq<Sym>>, values: seq<bytes>): (argv: seq<bytes>)
    requires TotalSlots(words) <= |values|
    ensures |argv| == |words|
  {
    if words == [] then []
    else [Fill(words[0], values)] + FillAll(words[1..], values[Slots(words[0])..])
  }

  lemma SlotsSplit(a: seq<Sym>, n: nat)
    requires n <= |a|
    ensures Slots(a) == Slots(a[..n]) + Slots(a[n..])
  {
    if n > 0 {
      SlotsSplit(a[1..], n - 1);
      assert a[..n][1..] == a[1..][..n - 1] && a[n..] == a[1..][n - 1..];
    } else {
      assert a[0..] == a;
    }
  }

  /** No value is lost or used twice: the words take what the format takes. */
  lemma {:induction false} WordsTakeAll(syms: seq<Sym>)
    ensures TotalSlots(Words(syms)) == Slots(syms)
    decreases |syms|
  {
    if syms != [] {
      if syms[0] == Gap {
        WordsTakeAll(syms[1..]);
      } else {
        var n := WordLength(syms);
        SlotsSplit(syms, n);
        WordsTakeAll(syms[n..]);
        assert Words(syms)[0] == syms[..n] && Words(syms)[1..] == Words(syms[n..]);
      }
    }
  }

  /** Words are never empty and never contain a gap, whatever the format. */
  lemma {:induction false} WordsAreWords(syms: seq<Sym>)
    ensures forall i :: 0 <= i < |Words(syms)| ==> Words(syms)[i] != [] && Gap !in Words(syms)[i]
    decreases |syms|
  {
    if syms != [] {
      if syms[0] == Gap {
        WordsAreWords(syms[1..]);
      } else {
        WordsAreWords(syms[WordLength(syms)..]);
      }
    }
  }

  // ------------------------------------------------------------------------
  // The scan, one symbol at a time

  /** The arguments still to come when the scan stands before `syms`, with `cur` as the
      word begun so far if `touched`. */
  function ToCome(touched: bool, cur: bytes, syms: seq<Sym>, values: seq<bytes>): seq<bytes>
    requires Slots(syms) <= |values|
  {
    var n := if touched then WordLength(syms) else 0;
    SlotsSplit(syms, n);
    WordsTakeAll(syms[n..]);
    var others := FillAll(Words(syms[n..]), values[Slots(syms[..n])..]);
    if touched then [cur + Fill(syms[..n], values)] + others else others
  }

  lemma ToComeStart(syms: seq<Sym>, values: seq<bytes>)
    requires Slots(syms) <= |values|
    ensures TotalSlots(Words(syms)) <= |values|
    ensures [] + ToCome(false, [], syms, values) == FillAll(Words(syms), values)
  {
    WordsTakeAll(syms);
    assert syms[..0] == [] && syms[0..] == syms && values[0..] == values;
  }

  lemma ToComeEnd(touched: bool, cur: bytes, values: seq<bytes>)
    ensures ToCome(touched, cur, [], values) == if touched then [cur] else []
  {
    var none: seq<Sym> := [];
    assert none[..0] == none && none[0..] == none;
    assert cur + Fill(none, values) == cur;
  }

  lemma ToComeGap(touched: bool, cur: bytes, syms: seq<Sym>, values: seq<bytes>)
    requires syms != [] && syms[0] == Gap && Slots(syms) <= |values|
    ensures ToCome(touched, cur, syms, values)
         == (if touched then [cur] else []) + ToCome(false, [], syms[1..], values)
  {
    var none: seq<Sym> := [];
    assert WordLength(syms) == 0 && syms[..0] == none && syms[0..] == syms;
    assert syms[1..][..0] == none && syms[1..][0..] == syms[1..];
    assert values[0..] == values && cur + Fill(none, values) == cur;
    WordsTakeAll(syms);
  }

  /** How many values a symbol takes, and the text it stands for. */
  function Taken(sym: Sym): nat { if sym.Slot? then 1 else 0 }

  function TextOf(sym: Sym, values: seq<bytes>): bytes
    requires sym != Gap && Taken(sym) <= |values|
  {
    if sym.Slot? then Inserted(sym.counted, values[0]) else [sym.c]
  }

  /** The first symbol of a word fills in its text, the rest of the word the rest. */
  lemma FillFirst(word: seq<Sym>, values: seq<bytes>, cur: bytes)
    requires word != [] && word[0] != Gap && Slots(word) <= |values|
    ensures word[0].Slot? ==> values != []
    ensures cur + Fill(word, values)
         == (cur + TextOf(word[0], values)) + Fill(word[1..], values[Taken(word[0])..])
  {
    assert values[0..] == values;
  }

  /** Before a word is touched, it is the first of the words to come. */
  lemma ToComeUntouched(syms: seq<Sym>, values: seq<bytes>)
    requires syms != [] && syms[0] != Gap && Slots(syms) <= |values|
    ensures ToCome(false, [], syms, values) == ToCome(true, [], syms, values)
  {
    var n := WordLength(syms);
    WordsTakeAll(syms);
    SlotsSplit(syms, n);
    assert syms[..0] == [] && syms[0..] == syms && values[0..] == values;
    assert Words(syms)[0] == syms[..n] && Words(syms)[1..] == Words(syms[n..]);
    assert [] + Fill(syms[..n], values) == Fill(syms[..n], values);
  }

  lemma ToComeTouched(cur: bytes, syms: seq<Sym>, values: seq<bytes>)
    requires syms != [] && syms[0] != Gap && Slots(syms) <= |values|
    ensures ToCome(true, cur, syms, values)
         == ToCome(true, cur + TextOf(syms[0], values), syms[1..], values[Taken(syms[0])..])
  {
    hide FillAll, Words, Fill;
    var n := WordLength(syms);
    var word := syms[..n];
    assert word[0] == syms[0];
    assert word[1..] == syms[1..][..n - 1] && syms[n..] == syms[1..][n - 1..];
    assert WordLength(syms[1..]) == n - 1;
    SlotsSplit(syms, n);
    FillFirst(word, values, cur);
    assert values[Slots(word)..] == values[Taken(syms[0])..][Slots(word[1..])..];
  }

  lemma ToComeSymbol(touched: bool, cur: bytes, syms: seq<Sym>, values: seq<bytes>)
    requires syms != [] && syms[0] != Gap && Slots(syms) <= |values|
    requires !touched ==> cur == []
    ensures ToCome(touched, cur, syms, values)
         == ToCome(true, cur + TextOf(syms[0], values), syms[1..], values[Taken(syms[0])..])
  {
    if !touched {
      ToComeUntouched(syms, values);
    }
    ToComeTouched(cur, syms, values);
  }

  /** Whether the format up to position c gave the arguments argv and the word curarg,
      so that the rest of it will give the rest of `all`. */
  ghost predicate Scanned(format: bytes, c: nat, values: seq<bytes>, v: nat,
                          argv: seq<bytes>, touched: bool, curarg: bytes, all: seq<bytes>)
  {
    && c <= |format| && v <= |values|
    && Supported(format[c..]) && Slots(Symbols(format[c..])) <= |values| - v
    && (!touched ==> curarg == [])
    && argv + ToCome(touched, curarg, Symbols(format[c..]), values[v..]) == all
  }

  lemma ScanStart(format: bytes, values: seq<bytes>)
    requires Supported(format) && Slots(Symbols(format)) <= |values|
    ensures TotalSlots(Words(Symbols(format))) <= |values|
    ensures Scanned(format, 0, values, 0, [], false, [], FillAll(Words(Symbols(format)), values))
  {
    assert format[0..] == format && values[0..] == values;
    ToComeStart(Symbols(format), values);
  }

  lemma ScanGap(format: bytes, c: nat, values: seq<bytes>, v: nat,
                argv: seq<bytes>, touched: bool, curarg: bytes, all: seq<bytes>)
    requires Scanned(format, c, values, v, argv, touched, curarg, all)
    requires c < |format| && format[c] == SPACE
    ensures Scanned(format, c + 1, values, v, if touched then argv + [curarg] else argv, false, [], all)
  {
    hide ToCome, FillAll, Words;
    var syms := Symbols(format[c..]);
    assert format[c..][1..] == format[c + 1..];
    assert syms[1..] == Symbols(format[c + 1..]);
    ToComeGap(touched, curarg, syms, values[v..]);
    var others := ToCome(false, [], syms[1..], values[v..]);
    assert argv + ((if touched then [curarg] else []) + others)
        == (if touched then argv + [curarg] else argv) + others;
  }

  lemma ScanChar(format: bytes, c: nat, values: seq<bytes>, v: nat,
               argv: seq<bytes>, touched: bool, curarg: bytes, all: seq<bytes>)
    requires Scanned(format, c, values, v, argv, touched, curarg, all)
    requires c < |format| && format[c] != SPACE && (format[c] != PERCENT || c + 1 == |format|)
    ensures Scanned(format, c + 1, values, v, argv, true, curarg + [format[c]], all)
  {
    hide ToCome, FillAll, Words;
    var syms := Symbols(format[c..]);
    assert format[c..][1..] == format[c + 1..];
    assert syms[1..] == Symbols(format[c + 1..]);
    ToComeSymbol(touched, curarg, syms, values[v..]);
    assert values[v..][0..] == values[v..];
  }

  lemma ScanPercent(format: bytes, c: nat, values: seq<bytes>, v: nat,
               argv: seq<bytes>, touched: bool, curarg: bytes, all: seq<bytes>)
    requires Scanned(format, c, values, v, argv, touched, curarg, all)
    requires c + 1 < |format| && format[c] == PERCENT && format[c + 1] == PERCENT
    ensures Scanned(format, c + 2, values, v, argv, true, curarg + [PERCENT], all)
  {
    hide ToCome, FillAll, Words;
    var syms := Symbols(format[c..]);
    assert format[c..][2..] == format[c + 2..];
    assert syms[1..] == Symbols(format[c + 2..]);
    ToComeSymbol(touched, curarg, syms, values[v..]);
    assert values[v..][0..] == values[v..];
  }

  lemma ScanSlot(format: bytes, c: nat, values: seq<bytes>, v: nat,
               argv: seq<bytes>, touched: bool, curarg: bytes, all: seq<bytes>)
    requires Scanned(format, c, values, v, argv, touched, curarg, all)
    requires c + 1 < |format| && format[c] == PERCENT && format[c + 1] != PERCENT
    ensures v < |values|
    ensures Scanned(format, c + 2, values, v + 1, argv, true, curarg + Inserted(format[c + 1] == 98, values[v]), all)
  {
    hide ToCome, FillAll, Words;
    var syms := Symbols(format[c..]);
    assert format[c..][2..] == format[c + 2..];
    assert syms[1..] == Symbols(format[c + 2..]);
    ToComeSymbol(touched, curarg, syms, values[v..]);
    assert values[v..][1..] == values[v + 1..];
  }

  lemma ScanEnd(format: bytes, values: seq<bytes>, v: nat,
                argv: seq<bytes>, touched: bool, curarg: bytes, all: seq<bytes>)
    requires Scanned(format, |format|, values, v, argv, touched, curarg, all)
    ensures all == if touched then argv + [curarg] else argv
  {
    assert format[|format|..] == [];
    ToComeEnd(touched, curarg, values[v..]);
  }

  /** Finish an argument and count its bytes. */
  method Push(argv: seq<bytes>, curarg: bytes, body: nat) returns (argv': seq<bytes>, body': nat)
    requires body == |BulkTexts(argv)|
    ensures argv' == argv + [curarg] && body' == |BulkTexts(argv')|
  {
    argv' := argv + [curarg];
    BulkTextsPrefix(argv', |argv|);
    assert argv'[..|argv| + 1] == argv' && argv'[..|argv|] == argv;
    var n := BulkLen(|curarg|);
    body' := body + n;
  }

  /** Scan the format and collect its arguments, counting their bytes on the way. */
  method CollectWords(format: bytes, values: seq<bytes>) returns (argv: seq<bytes>, body: nat)
    requires Supported(format) && Slots(Symbols(format)) <= |values|
    ensures TotalSlots(Words(Symbols(format))) <= |values|
    ensures argv == FillAll(Words(Symbols(format)), values) && body == |BulkTexts(argv)|
  {
    ScanStart(format, values);
    ghost var all := FillAll(Words(Symbols(format)), values);
    var c, v, curarg, touched := 0, 0, [], false;
    argv, body := [], 0;
    while c < |format|
      invariant Scanned(format, c, values, v, argv, touched, curarg, all)
      invariant body == |BulkTexts(argv)|
    {
      if format[c] != PERCENT || c + 1 == |format| {
        if format[c] == SPACE {
          ScanGap(format, c, values, v, argv, touched, curarg, all);
          if touched {
            argv, body := Push(argv, curarg, body);
            curarg, touched := [], false;
          }
        } else {
          ScanChar(format, c, values, v, argv, touched, curarg, all);
          curarg, touched := curarg + [format[c]], true;
        }
      } else {
        if format[c + 1] == PERCENT {
          ScanPercent(format, c, values, v, argv, touched, curarg, all);
          curarg := curarg + [PERCENT];
        } else {
          ScanSlot(format, c, values, v, argv, touched, curarg, all);
          curarg, v := curarg + Inserted(format[c + 1] == 98, values[v]), v + 1;
        }
        touched := true;
        c := c + 1;
      }
      c := c + 1;
    }
    ScanEnd(format, values, v, argv, touched, curarg, all);
    if touched {
      argv, body := Push(argv, curarg, body);
    }
  }

  /** `redisvFormatCommand`: scan the format, collect arguments, assemble the command.
      `values` are the strings that the directives take, in order. */
  method FormatCommand(format: bytes, values: seq<bytes>) returns (cmd: array<byte>, totlen: nat)
    requires Supported(format) && Slots(Symbols(format)) <= |values|
    ensures TotalSlots(Words(Symbols(format))) <= |values|
    ensures fresh(cmd) && Formatted(cmd, totlen, FillAll(Words(Symbols(format)), values))
  {
    var argv, body := CollectWords(format, values);
    var digits := CountDigits(|argv|);
    totlen := body + 1 + digits + 2;
    cmd := Assemble(argv, totlen);
  }
}
