/** Command formatting: the exact size is computed first and the bytes are written
    into a block of that size; and the proof that the reader reads commands back. */
module Command {
  import opened Bytes
  import opened Decimal
  import opened NumberText
  import opened Resp
  import opened Reader
  import opened RespPrint
  import opened Session

  /** One argument on the wire. */
  function BulkText(arg: bytes): bytes {
    [DOLLAR] + Dec(|arg|) + CRLF + arg + CRLF
  }

  function BulkTexts(argv: seq<bytes>): bytes {
    if argv == [] then []
    else BulkTexts(argv[..|argv| - 1]) + BulkText(argv[|argv| - 1])
  }

  function Header(argc: nat): bytes {
    [STAR] + Dec(argc) + CRLF
  }

  /** A command on the wire: an array of bulk strings. */
  function Encode(argv: seq<bytes>): bytes {
    Header(|argv|) + BulkTexts(argv)
  }

  lemma BulkTextsPrefix(argv: seq<bytes>, j: nat)
    requires j < |argv|
    ensures BulkTexts(argv[..j + 1]) == BulkTexts(argv[..j]) + BulkText(argv[j])
  {
    assert argv[..j + 1][..j] == argv[..j];
  }

  lemma {:induction false} BulkTextsCons(arg: bytes, argv: seq<bytes>)
    ensures BulkTexts([arg] + argv) == BulkText(arg) + BulkTexts(argv)
  {
    if argv == [] {
      assert BulkTexts([arg]) == BulkTexts([]) + BulkText(arg);
      assert [arg] + argv == [arg];
    } else {
      var k := |argv| - 1;
      BulkTextsCons(arg, argv[..k]);
      assert ([arg] + argv)[..k + 1] == [arg] + argv[..k];
      Assoc(BulkText(arg), BulkTexts(argv[..k]), BulkText(argv[k]));
    }
  }

  /** The bytes of a command up to and without argument j. */
  function Partial(argv: seq<bytes>, j: nat): (s: bytes)
    requires j <= |argv|
    ensures j == |argv| ==> s == Encode(argv)
  {
    assert argv[..|argv|] == argv;
    Header(|argv|) + BulkTexts(argv[..j])
  }

  lemma {:induction false} PartialStep(argv: seq<bytes>, j: nat)
    requires j < |argv|
    ensures Partial(argv, j + 1) == Partial(argv, j) + BulkText(argv[j])
    ensures |Partial(argv, j + 1)| <= |Encode(argv)|
    decreases |argv| - j
  {
    BulkTextsPrefix(argv, j);
    if j + 1 < |argv| {
      PartialStep(argv, j + 1);
    }
  }

  lemma {:induction false} PartialPrefix(argv: seq<bytes>, j: nat)
    requires j <= |argv|
    ensures Partial(argv, j) <= Encode(argv)
    decreases |argv| - j
  {
    if j < |argv| {
      PartialPrefix(argv, j + 1);
      PartialStep(argv, j);
    }
  }

  // ------------------------------------------------------------------------
  // Writing

  method BulkLen(len: nat) returns (n: nat)
    ensures forall arg :: |arg| == len ==> n == |BulkText(arg)|
  {
    var digits := CountDigits(len);
    return 1 + digits + 2 + len + 2;
  }

  /** `sprintf` or `memcpy` at position pos: the text goes in and pos moves behind it. */
  method Put(cmd: array<byte>, pos: nat, text: bytes) returns (pos': nat)
    requires pos + |text| < cmd.Length
    modifies cmd
    ensures pos' == pos + |text| && cmd[..pos'] == old(cmd[..pos]) + text
  {
    forall i | 0 <= i < |text| {
      cmd[pos + i] := text[i];
    }
    return pos + |text|;
  }

  /** One argument: its length, its bytes, a line end. */
  method PutBulk(cmd: array<byte>, pos: nat, arg: bytes) returns (pos': nat)
    requires pos + |BulkText(arg)| < cmd.Length
    modifies cmd
    ensures pos' == pos + |BulkText(arg)| && cmd[..pos'] == old(cmd[..pos]) + BulkText(arg)
  {
    ghost var before := cmd[..pos];
    pos' := Put(cmd, pos, [DOLLAR] + Dec(|arg|) + CRLF);
    pos' := Put(cmd, pos', arg);
    pos' := Put(cmd, pos', CRLF);
    assert before + ([DOLLAR] + Dec(|arg|) + CRLF) + arg + CRLF == before + BulkText(arg);
  }

  /** The bytes of a command in a block of exactly the announced size. */
  ghost predicate Formatted(cmd: array<byte>, totlen: nat, argv: seq<bytes>)
    reads cmd
  {
    cmd.Length == totlen + 1 && cmd[..totlen] == Encode(argv) && cmd[totlen] == NUL
  }

  /** Build the command at protocol level, in a block whose size was computed before. */
  method Assemble(argv: seq<bytes>, totlen: nat) returns (cmd: array<byte>)
    requires totlen == |Encode(argv)|
    ensures fresh(cmd) && Formatted(cmd, totlen, argv)
  {
    cmd := new byte[totlen + 1](_ => NUL);
    var pos := Put(cmd, 0, Header(|argv|));
    for j := 0 to |argv|
      invariant cmd.Length == totlen + 1
      invariant pos == |Partial(argv, j)| <= totlen && cmd[..pos] == Partial(argv, j)
    {
      PartialStep(argv, j);
      pos := PutBulk(cmd, pos, argv[j]);
    }
    assert pos == totlen;
    cmd[pos] := NUL;
  }

  /** The exact size of a command, computed before anything is written. */
  method TotalLength(argv: seq<bytes>) returns (totlen: nat)
    ensures totlen == |Encode(argv)|
  {
    var digits := CountDigits(|argv|);
    totlen := 1 + digits + 2;
    for j := 0 to |argv|
      invariant totlen == |Partial(argv, j)|
    {
      PartialStep(argv, j);
      var n := BulkLen(|argv[j]|);
      totlen := totlen + n;
    }
  }

  /** `redisFormatCommandArgv`. */
  method FormatCommandArgv(argv: seq<bytes>) returns (cmd: array<byte>, totlen: nat)
    ensures fresh(cmd) && Formatted(cmd, totlen, argv)
  {
    totlen := TotalLength(argv);
    cmd := Assemble(argv, totlen);
  }

  // ------------------------------------------------------------------------
  // Reading back

  function AsReply(argv: seq<bytes>): Reply {
    Array(seq(|argv|, i requires 0 <= i < |argv| => Bulk(argv[i])))
  }

  lemma {:induction false} BulkTextsArePrint(argv: seq<bytes>)
    ensures BulkTexts(argv) == PrintAll(AsReply(argv).items)
  {
    if argv != [] {
      var arg, rest := argv[0], argv[1..];
      assert argv == [arg] + rest;
      BulkTextsCons(arg, rest);
      BulkTextsArePrint(rest);
      assert AsReply(argv).items[1..] == AsReply(rest).items;
      assert BulkText(arg) == Print(Bulk(arg));
    }
  }

  lemma FlatDepth(vs: seq<Reply>)
    requires forall i :: 0 <= i < |vs| ==> vs[i].Bulk?
    ensures MaxDepth(vs) == 0
  {
    if vs != [] {
      FlatDepth(vs[1..]);
    }
  }

  /** The reader takes a formatted command for the array of its arguments, whatever
      bytes they are made of, and consumes exactly the command. */
  lemma ParseOfEncode(argv: seq<bytes>, m: bytes)
    ensures Parse(0, Encode(argv) + m) == Done(AsReply(argv), m)
  {
    var v := AsReply(argv);
    BulkTextsArePrint(argv);
    assert Encode(argv) == Print(v);
    FlatDepth(v.items);
    ParseOfPrint(0, v, m);
  }

  /** Different argument lists have different encodings. */
  lemma EncodeInjective(argv: seq<bytes>, argv': seq<bytes>)
    requires Encode(argv) == Encode(argv')
    ensures argv == argv'
  {
    ParseOfEncode(argv, []);
    ParseOfEncode(argv', []);
    var vs, vs' := AsReply(argv).items, AsReply(argv').items;
    assert vs == vs';
    forall i | 0 <= i < |argv|
      ensures argv[i] == argv'[i]
    {
      assert vs[i] == Bulk(argv[i]) && vs'[i] == Bulk(argv'[i]);
    }
  }

  /** Commands one after the other, as a pipeline sends them. */
  function EncodeAll(commands: seq<seq<bytes>>): bytes {
    if commands == [] then [] else Encode(commands[0]) + EncodeAll(commands[1..])
  }

  function AsReplies(commands: seq<seq<bytes>>): seq<Reply> {
    if commands == [] then [] else [AsReply(commands[0])] + AsReplies(commands[1..])
  }

  lemma FirstBefore(v: Reply, vs: seq<Reply>, others: seq<Reply>)
    ensures [v] + (vs + others) == [v] + vs + others
  {
  }

  /** A stream of formatted commands is read as exactly those commands, whatever follows. */
  lemma {:induction false} TranscriptOfCommands(commands: seq<seq<bytes>>, m: bytes)
    ensures Transcript(EncodeAll(commands) + m) == Prepend(AsReplies(commands), Transcript(m))
  {
    if commands == [] {
      assert [] + m == m && [] + Transcript(m).replies == Transcript(m).replies;
    } else {
      var others := EncodeAll(commands[1..]);
      Assoc(Encode(commands[0]), others, m);
      ParseOfEncode(commands[0], others + m);
      TranscriptOfCommands(commands[1..], m);
      FirstBefore(AsReply(commands[0]), AsReplies(commands[1..]), Transcript(m).replies);
    }
  }

  lemma PrependCancels(vs: seq<Reply>, log: Log, log': Log)
    requires Prepend(vs, log) == Prepend(vs, log')
    ensures log == log'
  {
    assert log.replies == (vs + log.replies)[|vs|..];
    assert log'.replies == (vs + log'.replies)[|vs|..];
  }

  lemma NothingLeft(commands: seq<seq<bytes>>, frames: seq<Frame>, t: Option<ReplyType>, b: bytes)
    requires OnTrack(EncodeAll(commands), AsReplies(commands), frames, t, b)
    ensures frames == [] && t == None && b == []
  {
    forall m
      ensures LogFrom(Future(frames, t, b + m)) == Transcript(m)
    {
      assert OnTrackWith(EncodeAll(commands), AsReplies(commands), frames, t, b, m);
      TranscriptOfCommands(commands, m);
      PrependCancels(AsReplies(commands), LogFrom(Future(frames, t, b + m)), Transcript(m));
    }
    AtRest(frames, t, b);
  }

  /** Formatted commands that arrive in any pieces come out of the reader one by one, and
      nothing is left over. */
  method Receive(ghost commands: seq<seq<bytes>>, chunks: seq<bytes>)
    returns (reader: Reader, objects: seq<ReplyObject>, ghost values: seq<Reply>)
    requires Concat(chunks) == EncodeAll(commands)
    ensures fresh(reader) && reader.Ready() && reader.err == 0
    ensures Spell(objects, values, reader.done) && values == AsReplies(commands)
    ensures reader.Unread() == [] && reader.frames == [] && reader.Kind() == None
  {
    TranscriptOfCommands(commands, []);
    assert EncodeAll(commands) + [] == EncodeAll(commands);
    assert AsReplies(commands) + [] == AsReplies(commands);
    var failed;
    reader, objects, failed, values := Replay(chunks);
    NothingLeft(commands, reader.frames, reader.Kind(), reader.Unread());
  }
}
