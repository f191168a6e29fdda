/** Which commands the asynchronous client treats specially, read off the formatted
    command, and the callbacks registered for channels. */
module PubSub {
  import opened Bytes
  import opened Decimal
  import opened Resp
  import opened Command
  import opened Arguments
  import opened Dict

  const SUBSCRIBE: bytes := [115, 117, 98, 115, 99, 114, 105, 98, 101, CR, LF]
  const UNSUBSCRIBE: bytes := [117, 110] + SUBSCRIBE

  /** The word alone, as a C string. */
  const UNSUBSCRIBE_WORD: bytes := [117, 110, 115, 117, 98, 115, 99, 114, 105, 98, 101, NUL]
  const MONITOR: bytes := [109, 111, 110, 105, 116, 111, 114, CR, LF]

  function Lower(c: byte): byte { if 65 <= c <= 90 then c + 32 else c }

  /** `strncasecmp` of the text at position p with a whole literal. */
  predicate CasePrefix(s: bytes, p: nat, lit: bytes) {
    p + |lit| <= |s| && forall i :: 0 <= i < |lit| ==> Lower(s[p + i]) == lit[i]
  }

  datatype CmdKind = Subscribe(pattern: bool) | Unsubscribe | Other

  /** A leading p makes the pattern variant of a command. */
  function Variant(name: bytes): nat {
    if name != [] && Lower(name[0]) == 112 then 1 else 0
  }

  /** What a command is, from its arguments: the line end belongs to the comparison. */
  function Classify(argv: seq<bytes>): CmdKind
    requires argv != []
  {
    var p := Variant(argv[0]);
    if |argv| > 1 && CasePrefix(argv[0] + CRLF, p, SUBSCRIBE) then Subscribe(p == 1)
    else if CasePrefix(argv[0] + CRLF, p, UNSUBSCRIBE) then Unsubscribe
    else Other
  }

  /** Whether the command switches to monitor mode. */
  predicate Monitors(argv: seq<bytes>)
    requires argv != []
  {
    CasePrefix(argv[0] + CRLF, Variant(argv[0]), MONITOR)
  }

  /** A message for a channel or pattern: what it is and the name. */
  predicate IsMessage(reply: Reply) {
    reply.Array? && |reply.items| >= 2 && reply.items[0].Bulk? && reply.items[1].Bulk?
  }

  /** Whether the message concerns a pattern. */
  predicate OfPattern(reply: Reply)
    requires IsMessage(reply)
  {
    Variant(reply.items[0].text) == 1
  }

  /** Whether the message says that its name is no longer subscribed. */
  predicate Unsubscribed(reply: Reply)
    requires IsMessage(reply)
  {
    CasePrefix(reply.items[0].text + [NUL], Variant(reply.items[0].text), UNSUBSCRIBE_WORD)
  }

  /** Whether an unsubscription says how many names are left. */
  predicate Counts(reply: Reply)
    requires IsMessage(reply)
  {
    |reply.items| > 2 && reply.items[2].Integer?
  }

  /** The literals end with their only CR, so they match within a name and its line end
      or not at all. */
  lemma WithinName(s: bytes, start: nat, name: bytes, p: nat, lit: bytes)
    requires start + |name| + 2 <= |s| && s[start..][..|name| + 2] == name + CRLF
    requires p <= |name| && |lit| >= 2
    requires forall i :: 0 <= i < |lit| - 2 ==> lit[i] != CR
    ensures CasePrefix(s, start + p, lit) <==> CasePrefix(name + CRLF, p, lit)
  {
    var t := name + CRLF;
    forall i | 0 <= i < |t|
      ensures s[start + i] == t[i]
    {
      assert t[i] == s[start..][..|name| + 2][i];
    }
    assert Lower(t[|name|]) == CR;
    var k := |name| - p;
    assert start + (p + k) == start + |name|;
    assert k < |lit| && Lower(s[start + p + k]) != lit[k] ==> !CasePrefix(s, start + p, lit);
    if p + |lit| <= |t| {
      forall i | 0 <= i < |lit|
        ensures Lower(s[start + p + i]) == lit[i] <==> Lower(t[p + i]) == lit[i]
      {
        assert s[start + (p + i)] == t[p + i];
      }
    }
  }

  /** Compare the name at `start`, behind its variant letter, with the two literals. */
  method KindAt(s: bytes, start: nat, hasnext: bool, ghost name: bytes) returns (kind: CmdKind)
    requires start + |name| + 2 <= |s| && s[start..][..|name| + 2] == name + CRLF
    ensures forall argv :: argv != [] && argv[0] == name && (|argv| > 1) == hasnext ==> kind == Classify(argv)
  {
    assert s[start] == s[start..][..|name| + 2][0] == (name + CRLF)[0];
    var p := if Lower(s[start]) == 112 then 1 else 0;
    assert p == Variant(name);
    WithinName(s, start, name, p, SUBSCRIBE);
    WithinName(s, start, name, p, UNSUBSCRIBE);
    if hasnext && CasePrefix(s, start + p, SUBSCRIBE) {
      return Subscribe(p == 1);
    }
    return if CasePrefix(s, start + p, UNSUBSCRIBE) then Unsubscribe else Other;
  }

  /** An argument on the wire ends with the argument and a line end. */
  lemma BulkEnd(arg: bytes)
    ensures |BulkText(arg)| >= |arg| + 2 && BulkText(arg)[|BulkText(arg)| - |arg| - 2..] == arg + CRLF
  {
    var front := [DOLLAR] + Dec(|arg|) + CRLF;
    Assoc(front, arg, CRLF);
    assert BulkText(arg) == front + (arg + CRLF);
  }

  /** The end of a slice. */
  lemma SliceEnd(s: bytes, p: nat, q: nat, n: nat)
    requires p <= q <= |s| && n <= q - p
    ensures s[q - n..][..n] == s[p..q][q - p - n..]
  {
  }

  /** Behind the first argument stands the `$` of the next, or the NUL at the end. */
  lemma BehindName(argv: seq<bytes>)
    requires argv != []
    ensures var s, q := Encode(argv) + [NUL], Offset(argv, 1);
      q < |s| && (s[q] == DOLLAR <==> |argv| > 1)
  {
    AtOffset(argv, 1);
    var s, q := Encode(argv) + [NUL], Offset(argv, 1);
    if |argv| > 1 {
      PartialStep(argv, 1);
      assert s[q] == (Partial(argv, 1) + BulkText(argv[1]))[q];
    }
  }

  /** The first argument and its line end in the block, and what stands behind them. */
  lemma NameText(argv: seq<bytes>)
    requires argv != []
    ensures var s, found := Encode(argv) + [NUL], Expected(argv, 0).value;
      && found.start + |argv[0]| + 2 == found.next < |s|
      && s[found.start..][..|argv[0]| + 2] == argv[0] + CRLF
      && (s[found.next] == DOLLAR <==> |argv| > 1)
  {
    TextAt(argv, 0);
    BulkEnd(argv[0]);
    SliceEnd(Encode(argv) + [NUL], Offset(argv, 0), Offset(argv, 1), |argv[0]| + 2);
    BehindName(argv);
  }

  lemma NamesSnoc(argv: seq<bytes>, j: nat)
    requires 1 <= j < |argv|
    ensures argv[1..j + 1] == argv[1..j] + [argv[j]]
    ensures j + 1 == |argv| ==> argv[1..j + 1] == argv[1..]
  {
  }

  /** The arguments after the first, taken off one call after the other. */
  method ListedNames(s: bytes, p: nat, ghost argv: seq<bytes>) returns (names: seq<bytes>)
    requires argv != [] && Short(argv) && s == Encode(argv) + [NUL] && p == Offset(argv, 1)
    ensures names == argv[1..]
  {
    FindsArgument(argv, 1);
    names := [];
    var r := NextArgument(s, p);
    ghost var j := 1;
    while r.Some?
      invariant 1 <= j <= |argv| && names == argv[1..j] && r == Expected(argv, j)
      invariant j == |argv| ==> names == argv[1..]
      decreases |argv| - j
    {
      var arg;
      arg, r := TakeArgument(s, r.value, argv, j);
      NamesSnoc(argv, j);
      names, j := names + [arg], j + 1;
    }
  }

  /** Read off a formatted command what it is, and the names that it lists. */
  method ReadCommand(s: bytes, ghost argv: seq<bytes>) returns (kind: CmdKind, names: seq<bytes>)
    requires argv != [] && Short(argv) && s == Encode(argv) + [NUL]
    ensures kind == Classify(argv)
    ensures names == argv[1..]
  {
    FindsFirst(argv);
    NameText(argv);
    var first := NextArgument(s, 0).value;
    kind := KindAt(s, first.start, s[first.next] == DOLLAR, argv[0]);
    names := ListedNames(s, first.next, argv);
  }

  /** The callbacks of a set of channels after cb was registered for some names. */
  function Registered(m: map<bytes, Callback>, names: seq<bytes>, cb: Callback): map<bytes, Callback> {
    map k | k in m.Keys + (set n | n in names) :: if k in names then cb else m[k]
  }
}
