/** Laws of the reply protocol that are stated on the bytes themselves: how each kind of
    reply is spelled, when a stream is in error, and that one that is not in error always
    has a continuation. */
module Wire {
  import opened Bytes
  import opened Decimal
  import opened Command
  import opened Resp
  import opened Reader
  import opened RespPrint
  import opened Session

  // ------------------------------------------------------------------------
  // How replies are spelled

  /** Numbers are written in base ten, the last digit last. */
  lemma DecimalDigits(v: nat, d: nat)
    requires d < 10
    ensures Dec(d) == [48 + d] && (v > 0 ==> Dec(10 * v + d) == Dec(v) + [48 + d])
  {
    assert (10 * v + d) / 10 == v && (10 * v + d) % 10 == d;
  }

  lemma SignedDigits(v: nat)
    ensures DecInt(v) == Dec(v) && (v > 0 ==> DecInt(0 - v) == [45] + Dec(v))
  {
  }

  /** Any other byte in a number, but for a sign in front, makes it -1. */
  lemma {:induction false} GarbageDigits(text: bytes, k: nat, m: bytes, acc: nat)
    requires CR !in text && k < |text| && !(48 <= text[k] <= 57)
    ensures CR in text + [13] + m && Digits(text + [13] + m, acc) == None
    decreases k
  {
    var b := text + [13] + m;
    assert b[|text|] == CR && b[0] == text[0];
    if k > 0 && IsDigit(text[0]) {
      assert b[1..] == text[1..] + [13] + m;
      GarbageDigits(text[1..], k - 1, m, acc * 10 + (text[0] - 48));
    }
  }

  lemma GarbageNumber(text: bytes, k: nat, m: bytes)
    requires CR !in text && k < |text| && !(48 <= text[k] <= 57) && (k > 0 || text[0] !in {43, 45})
    ensures CR in text + [13] + m && ReadLongLong(text + [13] + m) == -1
  {
    var b := text + [13] + m;
    assert b[|text|] == CR && b[0] == text[0];
    if text[0] in {43, 45} {
      assert b[1..] == text[1..] + [13] + m;
      GarbageDigits(text[1..], k - 1, m, 0);
    } else {
      GarbageDigits(text, k, m, 0);
    }
  }

  /** A plus sign changes nothing. */
  lemma PlusSign(v: nat, m: bytes)
    ensures CR in [43] + (Dec(v) + [13] + m) && ReadLongLong([43] + (Dec(v) + [13] + m)) == v
  {
    var tail := [13] + m;
    Assoc(Dec(v), [13], m);
    DigitsOfDec(v, tail);
    assert ([43] + (Dec(v) + tail))[1..] == Dec(v) + tail;
  }

  lemma TypeByte(depth: nat, c: byte, line: bytes, rest: bytes)
    requires TypeOfByte(c).Some?
    ensures Parse(depth, [c] + line + rest) == Body(depth, TypeOfByte(c).value, line + rest)
  {
    Assoc([c], line, rest);
    assert ([c] + (line + rest))[1..] == line + rest;
  }

  /** `+` and `-` begin a line of text. */
  lemma SpellsText(depth: nat, text: bytes, rest: bytes)
    requires forall i :: !CrlfAt(text, i)
    ensures Parse(depth, [43] + (text + [13, 10]) + rest) == Done(Status(text), rest)
    ensures Parse(depth, [45] + (text + [13, 10]) + rest) == Done(Failure(text), rest)
  {
    TypeByte(depth, 43, text + CRLF, rest);
    TypeByte(depth, 45, text + CRLF, rest);
    TextItem(depth, TStatus, text, rest);
    TextItem(depth, TError, text, rest);
  }

  /** `:` begins a number. */
  lemma SpellsInteger(depth: nat, n: int, rest: bytes)
    ensures Parse(depth, [58] + (DecInt(n) + [13, 10]) + rest) == Done(Integer(n), rest)
  {
    TypeByte(depth, 58, DecInt(n) + CRLF, rest);
    IntegerItem(depth, n, rest);
  }

  /** `$` begins a length, and so many bytes come behind its line; no bytes at all behind a
      negative one. */
  lemma SpellsBulk(depth: nat, text: bytes, n: int, rest: bytes)
    requires n < 0
    ensures Parse(depth, [36] + (Dec(|text|) + [13, 10]) + (text + [13, 10] + rest)) == Done(Bulk(text), rest)
    ensures Parse(depth, [36] + (DecInt(n) + [13, 10]) + rest) == Done(Nil, rest)
  {
    TypeByte(depth, 36, DecInt(|text|) + CRLF, text + CRLF + rest);
    BulkItem(depth, text, rest);
    TypeByte(depth, 36, DecInt(n) + CRLF, rest);
    NumberLine(n, rest);
  }

  /** What the two bytes behind a bulk are does not matter. */
  lemma BulkEnd(depth: nat, text: bytes, x: byte, y: byte, rest: bytes)
    ensures Parse(depth, [36] + (Dec(|text|) + [13, 10]) + (text + [x, y] + rest)) == Done(Bulk(text), rest)
  {
    var after := text + [x, y] + rest;
    TypeByte(depth, 36, DecInt(|text|) + CRLF, after);
    NumberLine(|text|, after);
    assert after[..|text|] == text && after[|text| + 2..] == rest;
  }

  /** Texts of replies: whatever comes behind, each is read as its value. */
  ghost predicate Spelled(depth: nat, texts: seq<bytes>, vs: seq<Reply>) {
    && |texts| == |vs|
    && forall i, m :: 0 <= i < |vs| ==> Parse(depth, texts[i] + m) == Done(vs[i], m)
  }

  function Joined(texts: seq<bytes>): bytes {
    if texts == [] then [] else texts[0] + Joined(texts[1..])
  }

  lemma {:induction false} ElementsOf(depth: nat, texts: seq<bytes>, vs: seq<Reply>, k: nat, rest: bytes)
    requires Spelled(depth, texts, vs) && k <= |vs|
    ensures Elements(depth, |vs|, vs[..k], Joined(texts[k..]) + rest) == Done(Array(vs), rest)
    decreases |vs| - k
  {
    if k == |vs| {
      assert vs[..k] == vs && texts[k..] == [] && Joined(texts[k..]) + rest == rest;
    } else {
      var left := Joined(texts[k + 1..]);
      assert texts[k..][0] == texts[k] && texts[k..][1..] == texts[k + 1..];
      Assoc(texts[k], left, rest);
      assert Parse(depth, texts[k] + (left + rest)) == Done(vs[k], left + rest);
      assert vs[..k] + [vs[k]] == vs[..k + 1];
      ElementsOf(depth, texts, vs, k + 1, rest);
    }
  }

  /** `*` begins a count, and so many replies come behind its line, unless it is nested too
      deep: nine arrays in each other are one too many. */
  lemma SpellsArray(depth: nat, texts: seq<bytes>, vs: seq<Reply>, rest: bytes)
    requires depth <= 8 && Spelled(depth + 1, texts, vs)
    ensures Parse(depth, [42] + (Dec(|vs|) + [13, 10]) + (Joined(texts) + rest))
         == if depth < 8 then Done(Array(vs), rest) else Malformed
  {
    hide Joined, Parse, Elements, Body;
    TypeByte(depth, 42, DecInt(|vs|) + CRLF, Joined(texts) + rest);
    ArrayItem(depth, |vs|, Joined(texts) + rest);
    ElementsOf(depth + 1, texts, vs, 0, rest);
    assert texts[0..] == texts && vs[..0] == [];
  }

  function Arguments(argv: seq<bytes>): (texts: seq<bytes>)
    ensures |texts| == |argv|
    ensures forall i :: 0 <= i < |texts| ==>
      texts[i] == [36] + (Dec(|argv[i]|) + [13, 10]) + (argv[i] + [13, 10])
  {
    seq(|argv|, i requires 0 <= i < |argv| => [36] + (Dec(|argv[i]|) + [13, 10]) + (argv[i] + [13, 10]))
  }

  lemma {:induction false} TextsJoined(argv: seq<bytes>)
    ensures BulkTexts(argv) == Joined(Arguments(argv))
    decreases |argv|
  {
    if argv != [] {
      TextsJoined(argv[1..]);
      BulkTextsCons(argv[0], argv[1..]);
      assert [argv[0]] + argv[1..] == argv;
      assert Arguments(argv)[1..] == Arguments(argv[1..]);
      assert BulkText(argv[0]) == Arguments(argv)[0];
    }
  }

  /** A command is an array of bulk strings, byte for byte. */
  lemma SpellsCommand(argv: seq<bytes>)
    ensures Encode(argv) == [42] + (Dec(|argv|) + [13, 10]) + Joined(Arguments(argv))
  {
    hide Joined, BulkTexts, Dec, Arguments;
    TextsJoined(argv);
    Assoc([42], Dec(|argv|), [13, 10]);
  }

  /** An array of -1 elements is nil, and one of fewer a hollow array. */
  lemma SpellsNoArray(depth: nat, n: int, rest: bytes)
    requires depth < 8 && n < 0
    ensures Parse(depth, [42] + (DecInt(n) + [13, 10]) + rest) == Done(if n == -1 then Nil else Hollow(n), rest)
  {
    TypeByte(depth, 42, DecInt(n) + CRLF, rest);
    NumberLine(n, rest);
  }

  // ------------------------------------------------------------------------
  // A stream that is not in error can go on

  /** So many empty status replies. */
  function Filler(k: nat): bytes {
    if k == 0 then [] else [43, 13, 10] + Filler(k - 1)
  }

  lemma {:induction false} FillerElements(depth: nat, total: nat, sofar: seq<Reply>)
    requires |sofar| <= total
    ensures var o := Elements(depth, total, sofar, Filler(total - |sofar|)); o.Done? && o.rest == []
    decreases total - |sofar|
  {
    if |sofar| < total {
      var left := Filler(total - |sofar| - 1);
      SpellsText(depth, [], left);
      assert [43] + ([] + [13, 10]) + left == [43, 13, 10] + left;
      FillerElements(depth, total, sofar + [Status([])]);
    }
  }

  /** A line that has not ended yet ends where a line end is put behind it. */
  lemma LineEnds(b: bytes)
    requires NewlineAt(b) == None
    ensures NewlineAt(b + CRLF) == Some(|b|) && (b + CRLF)[|b| + 2..] == []
  {
    var c := b + CRLF;
    forall j | 0 <= j < |b|
      ensures !CrlfAt(c, j)
    {
      assert !CrlfAt(b, j);
    }
    NewlineUnique(c, |b|);
  }

  lemma {:induction false} TailCompletes(depth: nat, t: ReplyType, b: bytes) returns (m: bytes)
    requires depth <= LAST_SLOT && Body(depth, t, b) == Incomplete
    ensures Body(depth, t, b + m).Done? && Body(depth, t, b + m).rest == []
    decreases |b|, 4
  {
    if NewlineAt(b).Some? {
      m := BodyCompletes(depth, t, b);
    } else {
      LineEnds(b);
      m := CRLF;
      var line := b + CRLF;
      if Body(depth, t, line) == Incomplete {
        m := BodyCompletes(depth, t, line);
        Assoc(b, CRLF, m);
        m := CRLF + m;
      }
    }
  }

  /** An item that is incomplete can be completed exactly. */
  lemma {:induction false} ParseCompletes(depth: nat, b: bytes) returns (m: bytes)
    requires depth <= LAST_SLOT && Parse(depth, b) == Incomplete
    ensures Parse(depth, b + m).Done? && Parse(depth, b + m).rest == []
    decreases |b|, 1
  {
    if b == [] {
      m := [43, 13, 10];
      SpellsText(depth, [], []);
      assert [43] + ([] + [13, 10]) + [] == b + m;
    } else {
      var t := TypeOfByte(b[0]).value;
      m := TailCompletes(depth, t, b[1..]);
      assert (b + m)[1..] == b[1..] + m;
    }
  }

  lemma {:induction false} ElementsComplete(depth: nat, total: nat, sofar: seq<Reply>, b: bytes) returns (m: bytes)
    requires depth <= LAST_SLOT && Elements(depth, total, sofar, b) == Incomplete
    ensures Elements(depth, total, sofar, b + m).Done? && Elements(depth, total, sofar, b + m).rest == []
    decreases |b|, 2
  {
    var o := Parse(depth, b);
    if o.Done? {
      m := ElementsComplete(depth, total, sofar + [o.reply], o.rest);
      ParseExtends(depth, b, m);
    } else {
      var first := ParseCompletes(depth, b);
      var v := Parse(depth, b + first).reply;
      var others := Filler(total - |sofar| - 1);
      m := first + others;
      ParseExtends(depth, b + first, others);
      Assoc(b, first, others);
      FillerElements(depth, total, sofar + [v]);
      assert [] + others == others;
    }
  }

  /** Once the line of an item is there, so many bytes or elements complete it. */
  lemma {:induction false} BodyCompletes(depth: nat, t: ReplyType, b: bytes) returns (m: bytes)
    requires depth <= LAST_SLOT && Body(depth, t, b) == Incomplete && NewlineAt(b).Some?
    ensures Body(depth, t, b + m).Done? && Body(depth, t, b + m).rest == []
    decreases |b| - 2, 3
  {
    var i := NewlineAt(b).value;
    var after, n := b[i + 2..], ReadLongLong(b);
    if t == TString {
      m := seq(n + 2 - |after|, _ => 0);
    } else {
      m := ElementsComplete(depth + 1, n, [], after);
    }
    HeadExtends(b, m, i);
  }

  /** A stream that is not in error has a continuation that completes one more reply. */
  lemma {:induction false} StreamCompletes(b: bytes) returns (m: bytes, v: Reply)
    requires !Transcript(b).malformed
    ensures Transcript(b + m) == Log(Transcript(b).replies + [v], false)
    decreases |b|
  {
    var o := Parse(0, b);
    if o.Done? {
      m, v := StreamCompletes(o.rest);
      ParseExtends(0, b, m);
      assert [o.reply] + (Transcript(o.rest).replies + [v]) == [o.reply] + Transcript(o.rest).replies + [v];
    } else {
      m := ParseCompletes(0, b);
      v := Parse(0, b + m).reply;
      assert Transcript([]) == Log([], false);
      assert [v] + [] == [] + [v];
    }
  }

  /** A stream is in error if and only if no continuation brings another reply. */
  lemma ErrorIsFinal(b: bytes)
    ensures Transcript(b).malformed <==> forall m :: Transcript(b + m).replies == Transcript(b).replies
  {
    if Transcript(b).malformed {
      forall m
        ensures Transcript(b + m).replies == Transcript(b).replies
      {
        TranscriptExtends(b, m);
      }
    } else {
      var m, v := StreamCompletes(b);
      assert Transcript(b + m).replies != Transcript(b).replies;
    }
  }

  // ------------------------------------------------------------------------
  // Bytes that begin no reply

  /** `+`, `-`, `:`, `$` and `*` are the bytes that begin a reply. */
  predicate Begins(c: byte) {
    c in {43, 45, 58, 36, 42}
  }

  lemma PrintBegins(v: Reply)
    ensures Begins(Print(v)[0])
  {
  }

  /** After complete replies, any other byte is an error at once, whatever comes behind. */
  lemma {:induction false} UnknownByte(vs: seq<Reply>, c: byte, m: bytes)
    requires forall i :: 0 <= i < |vs| ==> Printable(vs[i]) && Depth(vs[i]) <= LAST_SLOT
    requires !Begins(c)
    ensures Transcript(PrintAll(vs) + [c] + m) == Log(vs, true)
  {
    if vs != [] {
      var left := PrintAll(vs[1..]) + [c] + m;
      Assoc(Print(vs[0]), PrintAll(vs[1..]), [c] + m);
      Assoc(PrintAll(vs), [c], m);
      Assoc(PrintAll(vs[1..]), [c], m);
      ParseOfPrint(0, vs[0], left);
      UnknownByte(vs[1..], c, m);
      assert [vs[0]] + vs[1..] == vs;
    } else {
      assert [] + [c] + m == [c] + m;
    }
  }

  /** The reader, fed such a stream in any pieces, hands out the replies and then stops with a
      protocol error. */
  method Refuse(ghost vs: seq<Reply>, ghost c: byte, ghost m: bytes, chunks: seq<bytes>)
    returns (reader: Reader, objects: seq<ReplyObject>)
    requires forall i :: 0 <= i < |vs| ==> Printable(vs[i]) && Depth(vs[i]) <= LAST_SLOT
    requires !Begins(c) && Concat(chunks) == PrintAll(vs) + [c] + m
    ensures fresh(reader) && reader.Ready() && reader.err == 4
    ensures Spell(objects, vs, reader.done)
  {
    UnknownByte(vs, c, m);
    var failed;
    ghost var values;
    reader, objects, failed, values := Replay(chunks);
  }

  /** An object spells one reply. */
  lemma {:induction false} RepresentsOne(o: ReplyObject?, v: Reply, w: Reply, done: set<Slots>)
    requires Represents(o, v, done) && Represents(o, w, done)
    ensures v == w
    decreases v
  {
    if v.Array? && w.Array? {
      forall i | 0 <= i < |v.items|
        ensures v.items[i] == w.items[i]
      {
        RepresentsOne(o.element[i], v.items[i], w.items[i], done);
      }
    }
  }
}
