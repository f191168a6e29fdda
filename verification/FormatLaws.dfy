/** What a command format makes of its values, said word by word: text, `%%`, `%s` and `%b`
    side by side, in words with a space between them. */
module FormatLaws {
  import opened Bytes
  import opened Command
  import opened CommandFormat

  /** A stretch of a word: plain text, a percent sign, a C string, or a counted string. What
      stands behind the NUL of a C string is its junk. */
  datatype Part =
    | Letters(text: bytes)
    | Percent
    | String(value: bytes, junk: Option<bytes>)
    | Binary(value: bytes)

  /** Plain text has no space, percent sign or NUL, and a C string no NUL before its end. */
  predicate Fine(p: Part) {
    match p
    case Letters(text) => text != [] && 32 !in text && 37 !in text && 0 !in text
    case String(value, _) => 0 !in value
    case _ => true
  }

  /** How the part is written in the format, */
  function Written(p: Part): bytes {
    match p
    case Letters(text) => text
    case Percent => [37, 37]
    case String(_, _) => [37, 115]
    case Binary(_) => [37, 98]
  }

  /** the value that is passed for it, */
  function Passed(p: Part): seq<bytes> {
    match p
    case String(value, junk) => [if junk.None? then value else value + [0] + junk.value]
    case Binary(value) => [value]
    case _ => []
  }

  /** and what it stands for. */
  function Meant(p: Part): bytes {
    match p
    case Letters(text) => text
    case Percent => [37]
    case String(value, _) => value
    case Binary(value) => value
  }

  function WordWritten(w: seq<Part>): bytes {
    if w == [] then [] else Written(w[0]) + WordWritten(w[1..])
  }

  function WordPassed(w: seq<Part>): seq<bytes> {
    if w == [] then [] else Passed(w[0]) + WordPassed(w[1..])
  }

  function WordMeant(w: seq<Part>): bytes {
    if w == [] then [] else Meant(w[0]) + WordMeant(w[1..])
  }

  /** Words with a space between them. */
  function AllWritten(ws: seq<seq<Part>>): bytes {
    if ws == [] then []
    else if |ws| == 1 then WordWritten(ws[0])
    else WordWritten(ws[0]) + [32] + AllWritten(ws[1..])
  }

  function AllPassed(ws: seq<seq<Part>>): seq<bytes> {
    if ws == [] then [] else WordPassed(ws[0]) + AllPassed(ws[1..])
  }

  function AllMeant(ws: seq<seq<Part>>): (argv: seq<bytes>)
    ensures |argv| == |ws| && forall i :: 0 <= i < |ws| ==> argv[i] == WordMeant(ws[i])
  {
    seq(|ws|, i requires 0 <= i < |ws| => WordMeant(ws[i]))
  }

  predicate FineWord(w: seq<Part>) {
    w != [] && forall i :: 0 <= i < |w| ==> Fine(w[i])
  }

  /** A format that can be scanned with these values. */
  predicate Scannable(f: bytes, values: seq<bytes>) {
    Supported(f) && Slots(Symbols(f)) <= |values|
  }

  /** The arguments to come, from a place in the format on. */
  function Coming(touched: bool, cur: bytes, f: bytes, values: seq<bytes>): seq<bytes>
    requires Scannable(f, values)
  {
    ToCome(touched, cur, Symbols(f), values)
  }

  lemma LetterRead(touched: bool, cur: bytes, c: byte, f: bytes, values: seq<bytes>)
    requires Scannable(f, values) && c !in {0, 32, 37} && (!touched ==> cur == [])
    ensures Scannable([c] + f, values)
    ensures Coming(touched, cur, [c] + f, values) == Coming(true, cur + [c], f, values)
  {
    assert ([c] + f)[1..] == f;
    assert Symbols([c] + f) == [Char(c)] + Symbols(f);
    ToComeSymbol(touched, cur, Symbols([c] + f), values);
    assert Symbols([c] + f)[1..] == Symbols(f) && values[0..] == values;
  }

  lemma {:induction false} LettersRead(touched: bool, cur: bytes, text: bytes, f: bytes, values: seq<bytes>)
    requires Scannable(f, values) && (!touched ==> cur == [])
    requires 32 !in text && 37 !in text && 0 !in text
    ensures Scannable(text + f, values)
    ensures Coming(touched, cur, text + f, values) == Coming(touched || text != [], cur + text, f, values)
    decreases |text|
  {
    if text == [] {
      assert text + f == f && cur + text == cur;
    } else {
      LettersRead(true, cur + [text[0]], text[1..], f, values);
      LetterRead(touched, cur, text[0], text[1..] + f, values);
      assert text == [text[0]] + text[1..];
      Assoc([text[0]], text[1..], f);
      Assoc(cur, [text[0]], text[1..]);
    }
  }

  lemma DirectiveRead(touched: bool, cur: bytes, d: byte, f: bytes, passed: seq<bytes>, values: seq<bytes>)
    requires Scannable(f, values) && (!touched ==> cur == [])
    requires if d == 37 then passed == [] else d in {98, 115} && |passed| == 1
    ensures Scannable([37, d] + f, passed + values)
    ensures Coming(touched, cur, [37, d] + f, passed + values)
         == Coming(true, cur + (if d == 37 then [37] else Inserted(d == 98, passed[0])), f, values)
  {
    var sym := if d == 37 then Char(37) else Slot(d == 98);
    assert ([37, d] + f)[2..] == f;
    assert Symbols([37, d] + f) == [sym] + Symbols(f);
    assert ([sym] + Symbols(f))[1..] == Symbols(f);
    ToComeSymbol(touched, cur, Symbols([37, d] + f), passed + values);
    assert (passed + values)[|passed|..] == values;
  }

  /** A C string ends before its first NUL. */
  lemma {:induction false} CStringEnds(value: bytes, junk: bytes)
    requires 0 !in value
    ensures CString(value) == value && CString(value + [0] + junk) == value
    decreases |value|
  {
    var v := value + [0] + junk;
    if value != [] {
      CStringEnds(value[1..], junk);
      assert v[0] == value[0] && v[1..] == value[1..] + [0] + junk;
      assert value == [value[0]] + value[1..];
    } else {
      assert v[0] == 0;
    }
  }

  lemma PartRead(touched: bool, cur: bytes, p: Part, f: bytes, values: seq<bytes>)
    requires Fine(p) && Scannable(f, values) && (!touched ==> cur == [])
    ensures Scannable(Written(p) + f, Passed(p) + values)
    ensures Coming(touched, cur, Written(p) + f, Passed(p) + values) == Coming(true, cur + Meant(p), f, values)
  {
    match p
    case Letters(text) =>
      LettersRead(touched, cur, text, f, values);
      assert [] + values == values;
    case Percent => DirectiveRead(touched, cur, 37, f, [], values);
    case String(value, junk) =>
      CStringEnds(value, if junk.Some? then junk.value else []);
      DirectiveRead(touched, cur, 115, f, Passed(p), values);
    case Binary(value) => DirectiveRead(touched, cur, 98, f, Passed(p), values);
  }

  lemma {:induction false} WordRead(touched: bool, cur: bytes, w: seq<Part>, f: bytes, values: seq<bytes>)
    requires (forall i :: 0 <= i < |w| ==> Fine(w[i])) && Scannable(f, values) && (!touched ==> cur == [])
    ensures Scannable(WordWritten(w) + f, WordPassed(w) + values)
    ensures Coming(touched, cur, WordWritten(w) + f, WordPassed(w) + values)
         == Coming(touched || w != [], cur + WordMeant(w), f, values)
    decreases |w|
  {
    hide Scannable, Coming, Written, Passed, Meant;
    if w == [] {
      assert [] + f == f && [] + values == values && cur + [] == cur;
    } else {
      var rest, left := WordWritten(w[1..]) + f, WordPassed(w[1..]) + values;
      WordRead(true, cur + Meant(w[0]), w[1..], f, values);
      PartRead(touched, cur, w[0], rest, left);
      Assoc(Written(w[0]), WordWritten(w[1..]), f);
      Assoc(cur, Meant(w[0]), WordMeant(w[1..]));
      assert Passed(w[0]) + left == WordPassed(w) + values;
    }
  }

  lemma GapRead(cur: bytes, f: bytes, values: seq<bytes>)
    requires Scannable(f, values)
    ensures Scannable([32] + f, values)
    ensures Coming(true, cur, [32] + f, values) == [cur] + Coming(false, [], f, values)
  {
    assert ([32] + f)[1..] == f;
    assert Symbols([32] + f) == [Gap] + Symbols(f);
    ToComeGap(true, cur, Symbols([32] + f), values);
    assert Symbols([32] + f)[1..] == Symbols(f);
  }

  lemma {:induction false} AllRead(ws: seq<seq<Part>>)
    requires forall i :: 0 <= i < |ws| ==> FineWord(ws[i])
    ensures Scannable(AllWritten(ws), AllPassed(ws))
    ensures Coming(false, [], AllWritten(ws), AllPassed(ws)) == AllMeant(ws)
    decreases |ws|
  {
    if ws == [] {
      ToComeEnd(false, [], []);
    } else {
      var w, others := ws[0], ws[1..];
      var cur := WordMeant(w);
      assert [] + cur == cur;
      AllRead(others);
      assert AllMeant(ws) == [cur] + AllMeant(others);
      if others == [] {
        WordRead(false, [], w, [], []);
        ToComeEnd(true, cur, []);
        assert WordWritten(w) + [] == AllWritten(ws) && WordPassed(w) + [] == AllPassed(ws);
      } else {
        GapRead(cur, AllWritten(others), AllPassed(others));
        WordRead(false, [], w, [32] + AllWritten(others), AllPassed(others));
        Assoc(WordWritten(w), [32], AllWritten(others));
      }
    }
  }

  /** The words of a format become the arguments: plain text and `%%` as they stand, a `%b`
      with its whole value, a `%s` up to the first NUL, and what stands side by side in a word
      stays side by side. */
  lemma FormatMeans(ws: seq<seq<Part>>)
    requires forall i :: 0 <= i < |ws| ==> FineWord(ws[i])
    ensures var f, values := AllWritten(ws), AllPassed(ws);
      && Scannable(f, values) && TotalSlots(Words(Symbols(f))) <= |values|
      && FillAll(Words(Symbols(f)), values) == AllMeant(ws)
  {
    AllRead(ws);
    ToComeStart(Symbols(AllWritten(ws)), AllPassed(ws));
    assert [] + AllMeant(ws) == AllMeant(ws);
  }

  /** So the formatter makes exactly the command of these words. */
  method FormatWords(format: bytes, values: seq<bytes>, ghost ws: seq<seq<Part>>)
    returns (cmd: array<byte>, totlen: nat)
    requires forall i :: 0 <= i < |ws| ==> FineWord(ws[i])
    requires format == AllWritten(ws) && values == AllPassed(ws)
    ensures fresh(cmd) && Formatted(cmd, totlen, AllMeant(ws))
  {
    FormatMeans(ws);
    cmd, totlen := FormatCommand(format, values);
  }

  // ------------------------------------------------------------------------
  // Some formats

  /** So many directives of one letter, with spaces between them. */
  function Directives(letter: byte, k: nat): bytes {
    if k == 0 then [] else if k == 1 then [37, letter] else [37, letter, 32] + Directives(letter, k - 1)
  }

  function Each(values: seq<bytes>, binary: bool): (ws: seq<seq<Part>>)
    ensures |ws| == |values|
    ensures forall i :: 0 <= i < |ws| ==> ws[i] == [if binary then Binary(values[i]) else String(values[i], None)]
  {
    seq(|values|, i requires 0 <= i < |values| => [if binary then Binary(values[i]) else String(values[i], None)])
  }

  lemma WordCons(p: Part, w: seq<Part>)
    ensures WordWritten([p] + w) == Written(p) + WordWritten(w)
    ensures WordPassed([p] + w) == Passed(p) + WordPassed(w) && WordMeant([p] + w) == Meant(p) + WordMeant(w)
  {
    assert ([p] + w)[1..] == w;
  }

  lemma OneDirective(value: bytes, binary: bool)
    ensures var w := [if binary then Binary(value) else String(value, None)];
      WordWritten(w) == [37, if binary then 98 else 115] && WordPassed(w) == [value] && WordMeant(w) == value
  {
    var p := if binary then Binary(value) else String(value, None);
    WordCons(p, []);
    assert [p] + [] == [p] && value + [] == value;
  }

  lemma {:induction false} EachWritten(values: seq<bytes>, binary: bool)
    ensures AllWritten(Each(values, binary)) == Directives(if binary then 98 else 115, |values|)
    ensures AllPassed(Each(values, binary)) == values
    decreases |values|
  {
    hide WordWritten, WordPassed, WordMeant;
    if values != [] {
      var ws := Each(values, binary);
      assert ws[1..] == Each(values[1..], binary);
      EachWritten(values[1..], binary);
      OneDirective(values[0], binary);
      assert [values[0]] + values[1..] == values;
    }
  }

  lemma EachMeant(values: seq<bytes>, binary: bool)
    ensures AllMeant(Each(values, binary)) == values
  {
    forall i | 0 <= i < |values|
      ensures WordMeant(Each(values, binary)[i]) == values[i]
    {
      OneDirective(values[i], binary);
    }
  }

  /** `%b %b ... %b` makes the command of any values, and `%s %s ... %s` of any that hold no
      NUL. */
  method FormatEach(values: seq<bytes>, binary: bool) returns (cmd: array<byte>, totlen: nat)
    requires binary || forall i :: 0 <= i < |values| ==> 0 !in values[i]
    ensures fresh(cmd) && totlen == |Encode(values)| && cmd.Length == totlen + 1
    ensures cmd[..totlen] == Encode(values)
  {
    EachWritten(values, binary);
    EachMeant(values, binary);
    cmd, totlen := FormatWords(Directives(if binary then 98 else 115, |values|), values, Each(values, binary));
  }

  lemma OneWord(w: seq<Part>)
    ensures AllWritten([w]) == WordWritten(w) && AllPassed([w]) == WordPassed(w) && AllMeant([w]) == [WordMeant(w)]
  {
    var ws := [w];
    assert ws[1..] == [];
    assert WordPassed(w) + [] == WordPassed(w);
  }

  /** Text around a directive stays where it is. */
  lemma Surrounded(pre: bytes, value: bytes, post: bytes)
    requires Fine(Letters(pre)) && Fine(Letters(post))
    ensures var f := pre + [37, 98] + post;
      && Scannable(f, [value]) && TotalSlots(Words(Symbols(f))) <= 1
      && FillAll(Words(Symbols(f)), [value]) == [pre + value + post]
  {
    hide Words, Fill, FillAll, Symbols, Slots, Supported, TotalSlots, AllWritten, AllPassed, AllMeant;
    var w := [Letters(pre)] + ([Binary(value)] + ([Letters(post)] + []));
    WordCons(Letters(post), []);
    WordCons(Binary(value), [Letters(post)] + []);
    WordCons(Letters(pre), [Binary(value)] + ([Letters(post)] + []));
    assert post + [] == post;
    Assoc(pre, [37, 98], post);
    Assoc(pre, value, post);
    assert WordWritten(w) == pre + [37, 98] + post && WordMeant(w) == pre + value + post && WordPassed(w) == [value];
    OneWord(w);
    FormatMeans([w]);
  }

  /** A C string is cut at its first NUL. */
  lemma CutAtNul(u: bytes, w: bytes)
    requires 0 !in u
    ensures var f: bytes, v := [37, 115], u + [0] + w;
      Scannable(f, [v]) && TotalSlots(Words(Symbols(f))) <= 1 && FillAll(Words(Symbols(f)), [v]) == [u]
  {
    var word := [String(u, Some(w))];
    FormatMeans([word]);
    OneWord(word);
    assert word[1..] == [];
    assert WordWritten(word) == [37, 115] && WordPassed(word) == [u + [0] + w] && WordMeant(word) == u;
  }
}
