/** `nextArgument`: a second, independent reader of formatted commands, which works on
    the NUL-terminated block with C string functions. */
module Arguments {
  import opened Bytes
  import opened Decimal
  import opened Command

  /** `strchr(s + p, c)`: the search ends at the first NUL. */
  function Strchr(s: bytes, p: nat, c: byte): (r: Option<nat>)
    requires p <= |s|
    ensures r.Some? ==> p <= r.value < |s| && s[r.value] == c
    decreases |s| - p
  {
    if p == |s| then None
    else if s[p] == c then Some(p)
    else if s[p] == NUL then None
    else Strchr(s, p + 1, c)
  }

  /** `strtol` in base ten on text that starts with its digits. */
  function Strtol(s: bytes, p: nat, acc: nat): nat
    requires p <= |s|
    decreases |s| - p
  {
    if p < |s| && IsDigit(s[p]) then Strtol(s, p + 1, acc * 10 + (s[p] - 48)) else acc
  }

  const INT_LIMIT := 0x8000_0000
  const LONG_MAX := 0x7fff_ffff_ffff_ffff

  /** What `(int)strtol(...)` makes of a number: `strtol` stops at the largest long, and
      the cast keeps 32 bits. */
  function CastLength(n: nat): (i: int)
    ensures i == n <==> n < INT_LIMIT
  {
    var low := (if n > LONG_MAX then LONG_MAX else n) % 0x1_0000_0000;
    if low < INT_LIMIT then low else low - 0x1_0000_0000
  }

  /** No argument is too long for its length to survive the cast. */
  predicate Short(argv: seq<bytes>) {
    forall i :: 0 <= i < |argv| ==> |argv[i]| < INT_LIMIT
  }

  /** An argument: where its bytes start, how many there are, and where to go on. A length
      that the cast has made negative leads backwards. */
  datatype Found = Found(start: nat, len: int, next: int)

  /** None is the end of the arguments. (A `$` without a later CR trips an assertion in
      the code; that is None here as well, and never happens on a formatted command.) */
  function NextArgument(s: bytes, p: nat): (r: Option<Found>)
    requires p < |s|
  {
    match if s[p] == DOLLAR then Some(p) else Strchr(s, p, DOLLAR)
    case None => None
    case Some(d) =>
      match Strchr(s, d, CR)
      case None => None
      case Some(e) =>
        var len := CastLength(Strtol(s, d + 1, 0));
        Some(Found(e + 2, len, e + 2 + len + 2))
  }

  lemma StrchrPasses(s: bytes, p: nat, q: nat, c: byte)
    requires p <= q < |s| && s[q] == c
    requires forall i :: p <= i < q ==> s[i] != c && s[i] != NUL
    ensures Strchr(s, p, c) == Some(q)
    decreases q - p
  {
    if p < q {
      StrchrPasses(s, p + 1, q, c);
    }
  }

  lemma StrtolIsDigits(s: bytes, p: nat, acc: nat)
    requires p <= |s| && CR in s[p..] && Digits(s[p..], acc).Some?
    ensures Strtol(s, p, acc) == Digits(s[p..], acc).value
    decreases |s| - p
  {
    assert s[p..][0] == s[p];
    if s[p] != CR {
      assert s[p..][1..] == s[p + 1..];
      StrtolIsDigits(s, p + 1, acc * 10 + (s[p] - 48));
    }
  }

  lemma Front(s: bytes, p: nat, a: bytes, rest: bytes)
    requires p <= |s| && s[p..] == a + rest
    ensures p + |a| <= |s| && s[p + |a|..] == rest
    ensures forall i :: p <= i < p + |a| ==> s[i] == a[i - p]
  {
    var t := s[p..];
    assert |t| == |a| + |rest|;
    assert t[|a|..] == rest;
    forall i | p <= i < p + |a|
      ensures s[i] == a[i - p]
    {
      assert s[i] == t[i - p];
    }
  }

  lemma BulkSpelled(arg: bytes, tail: bytes)
    ensures BulkText(arg) + tail == [DOLLAR] + (Dec(|arg|) + (CRLF + (arg + (CRLF + tail))))
  {
    var d := [DOLLAR];
    Assoc(d + Dec(|arg|) + CRLF + arg, CRLF, tail);
    Assoc(d + Dec(|arg|) + CRLF, arg, CRLF + tail);
    Assoc(d + Dec(|arg|), CRLF, arg + (CRLF + tail));
    Assoc(d, Dec(|arg|), CRLF + (arg + (CRLF + tail)));
  }

  /** The digits of a number, by position. */
  lemma DigitsLie(s: bytes, p: nat, n: nat, after: bytes)
    requires p <= |s| && s[p..] == Dec(n) + after
    ensures p + |Dec(n)| <= |s| && s[p + |Dec(n)|..] == after
    ensures forall i :: p <= i < p + |Dec(n)| ==> IsDigit(s[i])
  {
    Front(s, p, Dec(n), after);
  }

  /** The parts of an argument's text, by position. */
  lemma BulkParts(s: bytes, p: nat, arg: bytes, tail: bytes)
    requires p < |s| && s[p..] == BulkText(arg) + tail
    ensures var digits, after := Dec(|arg|), CRLF + (arg + (CRLF + tail));
            var q := p + 1 + |digits|;
            && q + 2 + |arg| + 2 == p + |BulkText(arg)| <= |s|
            && s[p] == DOLLAR && s[q] == CR
            && s[p + 1..] == digits + after && s[q + 2..] == arg + (CRLF + tail)
            && forall i :: p < i < q ==> IsDigit(s[i])
  {
    var digits, after := Dec(|arg|), CRLF + (arg + (CRLF + tail));
    BulkSpelled(arg, tail);
    Front(s, p, [DOLLAR], digits + after);
    DigitsLie(s, p + 1, |arg|, after);
    Front(s, p + 1 + |digits|, CRLF, arg + (CRLF + tail));
  }

  /** A length that stands before a line end is read. */
  lemma ReadsLength(s: bytes, p: nat, n: nat, after: bytes)
    requires p <= |s| && s[p..] == Dec(n) + after && after != [] && after[0] == CR
    ensures Strtol(s, p, 0) == n
  {
    DigitsOfDec(n, after);
    StrtolIsDigits(s, p, 0);
  }

  /** From the `$` on: the line end is found, and the length is read. */
  lemma FindsLength(s: bytes, p: nat, arg: bytes, tail: bytes)
    requires p < |s| && s[p..] == BulkText(arg) + tail
    ensures s[p] == DOLLAR
    ensures Strchr(s, p, CR) == Some(p + 1 + |Dec(|arg|)|) && Strtol(s, p + 1, 0) == |arg|
  {
    BulkParts(s, p, arg, tail);
    StrchrPasses(s, p, p + 1 + |Dec(|arg|)|, CR);
    ReadsLength(s, p + 1, |arg|, CRLF + (arg + (CRLF + tail)));
  }

  /** At the `$` of an argument, the argument is found, unless it is too long. */
  lemma FindsBulk(s: bytes, p: nat, arg: bytes, tail: bytes)
    requires p < |s| && s[p..] == BulkText(arg) + tail
    ensures NextArgument(s, p) == Some(Found(p + |BulkText(arg)| - |arg| - 2, |arg|, p + |BulkText(arg)|))
       <==> |arg| < INT_LIMIT
  {
    BulkParts(s, p, arg, tail);
    FindsLength(s, p, arg, tail);
  }

  lemma BulkLies(s: bytes, p: nat, arg: bytes, tail: bytes)
    requires p < |s| && s[p..] == BulkText(arg) + tail
    ensures p + |BulkText(arg)| <= |s| && |arg| + 2 <= |BulkText(arg)|
    ensures s[p + |BulkText(arg)| - |arg| - 2..][..|arg|] == arg
  {
    BulkParts(s, p, arg, tail);
  }

  /** Before the first argument stands a header without `$` or NUL. */
  lemma SkipsHeader(s: bytes, argc: nat)
    requires Header(argc) <= s && |Header(argc)| < |s| && s[|Header(argc)|] == DOLLAR
    ensures NextArgument(s, 0) == NextArgument(s, |Header(argc)|)
  {
    var h := Header(argc);
    forall i | 0 <= i < |h|
      ensures s[i] != DOLLAR && s[i] != NUL
    {
      assert s[i] == h[i];
    }
    StrchrPasses(s, 0, |h|, DOLLAR);
  }

  /** Where argument j of a command starts, in the block that holds the command. */
  function Offset(argv: seq<bytes>, j: nat): nat
    requires j <= |argv|
  {
    |Partial(argv, j)|
  }

  lemma AtOffset(argv: seq<bytes>, j: nat)
    requires j <= |argv|
    ensures Partial(argv, j) <= Encode(argv)
    ensures j < |argv| ==> Partial(argv, j) + BulkText(argv[j]) <= Encode(argv)
  {
    PartialPrefix(argv, j);
    if j < |argv| {
      PartialStep(argv, j);
      PartialPrefix(argv, j + 1);
    }
  }

  /** In a command whose size is an `int` no argument is too long. */
  lemma ShortInside(argv: seq<bytes>)
    requires |Encode(argv)| < INT_LIMIT
    ensures Short(argv)
  {
    forall j | 0 <= j < |argv|
      ensures |argv[j]| < INT_LIMIT
    {
      AtOffset(argv, j);
      assert |argv[j]| <= |BulkText(argv[j])| <= |Encode(argv)|;
    }
  }

  /** Where the text of argument j lies in the block, and what follows it. */
  lemma TextAt(argv: seq<bytes>, j: nat)
    requires j < |argv|
    ensures var s, p, q := Encode(argv) + [NUL], Offset(argv, j), Offset(argv, j + 1);
      && p < q < |s| && q == p + |BulkText(argv[j])|
      && s[p..q] == BulkText(argv[j]) && s[p..] == BulkText(argv[j]) + s[q..]
  {
    var s, p, q := Encode(argv) + [NUL], Offset(argv, j), Offset(argv, j + 1);
    AtOffset(argv, j);
    PartialStep(argv, j);
    assert s[p..q] == BulkText(argv[j]);
  }

  /** What there is to find after argument j - 1. */
  function Expected(argv: seq<bytes>, j: nat): Option<Found>
    requires j <= |argv|
  {
    if j == |argv| then None
    else
      PartialStep(argv, j);
      Some(Found(Offset(argv, j + 1) - |argv[j]| - 2, |argv[j]|, Offset(argv, j + 1)))
  }

  /** The call that follows argument j - 1 finds argument j exactly if that is shorter than
      2^31; after the last argument there is nothing to find. */
  lemma FindsArgument(argv: seq<bytes>, j: nat)
    requires j <= |argv|
    ensures Offset(argv, j) <= |Encode(argv)|
    ensures NextArgument(Encode(argv) + [NUL], Offset(argv, j)) == Expected(argv, j)
       <==> (j < |argv| ==> |argv[j]| < INT_LIMIT)
  {
    var s, p := Encode(argv) + [NUL], Offset(argv, j);
    AtOffset(argv, j);
    if j < |argv| {
      TextAt(argv, j);
      FindsBulk(s, p, argv[j], s[Offset(argv, j + 1)..]);
    } else {
      assert s[p] == NUL;
    }
  }

  /** What is found are the bytes of the argument. */
  lemma FoundIsArgument(argv: seq<bytes>, j: nat)
    requires j < |argv|
    ensures var found := Expected(argv, j).value;
      && found.start + found.len <= |Encode(argv)|
      && (Encode(argv) + [NUL])[found.start..][..found.len] == argv[j]
  {
    TextAt(argv, j);
    BulkLies(Encode(argv) + [NUL], Offset(argv, j), argv[j], (Encode(argv) + [NUL])[Offset(argv, j + 1)..]);
  }

  /** The first call, at the start of the block, finds argument 0, unless it is too long. */
  lemma FindsFirst(argv: seq<bytes>)
    requires argv != []
    ensures NextArgument(Encode(argv) + [NUL], 0) == Expected(argv, 0) <==> |argv[0]| < INT_LIMIT
  {
    var s := Encode(argv) + [NUL];
    AtOffset(argv, 0);
    assert BulkTexts(argv[..0]) == [];
    var text := Partial(argv, 0) + BulkText(argv[0]);
    assert s[|Header(|argv|)|] == text[|Header(|argv|)|];
    assert Header(|argv|) <= s;
    SkipsHeader(s, |argv|);
    FindsArgument(argv, 0);
  }

  /** The bytes of the argument that was found, and the search for the one after it. */
  method TakeArgument(s: bytes, found: Found, ghost argv: seq<bytes>, ghost j: nat)
    returns (arg: bytes, next: Option<Found>)
    requires Short(argv) && s == Encode(argv) + [NUL] && j < |argv| && Some(found) == Expected(argv, j)
    ensures arg == argv[j] && next == Expected(argv, j + 1)
  {
    FoundIsArgument(argv, j);
    FindsArgument(argv, j + 1);
    arg := s[found.start..][..found.len];
    next := NextArgument(s, found.next);
  }

  lemma TakeSnoc(argv: seq<bytes>, j: nat)
    requires j < |argv|
    ensures argv[..j + 1] == argv[..j] + [argv[j]]
    ensures j + 1 == |argv| ==> argv[..j + 1] == argv
  {
  }

  /** All arguments of a formatted command, taken off one call after the other. */
  method CollectArguments(s: bytes, ghost argv: seq<bytes>) returns (args: seq<bytes>)
    requires argv != [] && Short(argv) && s == Encode(argv) + [NUL]
    ensures args == argv
  {
    args := [];
    FindsFirst(argv);
    var r := NextArgument(s, 0);
    ghost var j := 0;
    while r.Some?
      invariant j <= |argv| && args == argv[..j] && r == Expected(argv, j) && (j == |argv| ==> args == argv)
      decreases |argv| - j
    {
      var arg;
      arg, r := TakeArgument(s, r.value, argv, j);
      TakeSnoc(argv, j);
      args, j := args + [arg], j + 1;
    }
  }
}
