/** Quoting byte strings for a command line and splitting a line into arguments: the
    two undo each other. */
module Quoting {
  import opened Bytes
  import opened Sds

  const QUOTE: byte := 34
  const APOSTROPHE: byte := 39
  const BACKSLASH: byte := 92
  const LETTER_X: byte := 120

  /** `isprint` and `isspace` of the C locale. */
  predicate IsPrint(c: byte) { 32 <= c <= 126 }
  predicate IsSpace(c: byte) { c == SPACE || 9 <= c <= 13 }

  predicate IsHexDigit(c: byte) {
    48 <= c <= 57 || 97 <= c <= 102 || 65 <= c <= 70
  }

  function HexDigitToInt(c: byte): (d: nat)
    ensures d < 16
  {
    if 48 <= c <= 57 then c - 48
    else if 97 <= c <= 102 then c - 87
    else if 65 <= c <= 70 then c - 55
    else 0
  }

  function HexDigit(d: nat): (c: byte)
    requires d < 16
    ensures IsHexDigit(c) && HexDigitToInt(c) == d
  {
    if d < 10 then 48 + d else 87 + d
  }

  /** The letter that stands for a control character after a backslash. */
  function Letter(c: byte): Option<byte> {
    if c == 10 then Some(110)
    else if c == 13 then Some(114)
    else if c == 9 then Some(116)
    else if c == 7 then Some(97)
    else if c == 8 then Some(98)
    else None
  }

  function Unescape(c: byte): byte {
    if c == 110 then 10
    else if c == 114 then 13
    else if c == 116 then 9
    else if c == 98 then 8
    else if c == 97 then 7
    else c
  }

  function Escape(c: byte): (s: bytes)
    ensures NUL !in s && 0 < |s| <= 4
  {
    if c == BACKSLASH || c == QUOTE then [BACKSLASH, c]
    else
      match Letter(c)
      case Some(l) => [BACKSLASH, l]
      case None =>
        if IsPrint(c) then [c] else [BACKSLASH, LETTER_X, HexDigit(c / 16), HexDigit(c % 16)]
  }

  function EscapeAll(p: bytes): (s: bytes)
    ensures NUL !in s && |s| <= 4 * |p|
  {
    if p == [] then [] else EscapeAll(p[..|p| - 1]) + Escape(p[|p| - 1])
  }

  function Repr(p: bytes): (s: bytes)
    ensures NUL !in s && |s| <= 4 * |p| + 2
  {
    [QUOTE] + EscapeAll(p) + [QUOTE]
  }

  /** The quoted form up to byte i. */
  function Opened(p: bytes, i: nat): (s: bytes)
    requires i <= |p|
    ensures |s| <= 4 * i + 1
  {
    [QUOTE] + EscapeAll(p[..i])
  }

  lemma OpenedStep(before: bytes, p: bytes, i: nat)
    requires i < |p|
    ensures before + Opened(p, i + 1) == before + Opened(p, i) + Escape(p[i])
  {
    assert p[..i + 1][..i] == p[..i];
  }

  /** `sdscatrepr`. */
  method CatRepr(s: Sds, p: bytes)
    requires s.Valid() && s.Len() + 4 * |p| + 2 + MAX_PREALLOC < SIZE_LIMIT
    modifies s, s.buf
    ensures s.Valid() && s.Content() == old(s.Content()) + Repr(p)
  {
    ghost var before := s.Content();
    s.CatLen([QUOTE]);
    for i := 0 to |p|
      invariant s.Valid() && (s.buf == old(s.buf) || fresh(s.buf))
      invariant s.Content() == before + Opened(p, i)
    {
      OpenedStep(before, p, i);
      s.CatLen(Escape(p[i]));
    }
    s.CatLen([QUOTE]);
    assert p[..|p|] == p;
    assert before + Opened(p, |p|) + [QUOTE] == before + Repr(p);
  }

  // ------------------------------------------------------------------------
  // Splitting, as a function of the rest of the line

  datatype Mode = Plain | Quoted | Single

  /** A token and the rest of the line behind it, or a misplaced quote. */
  datatype Scan = Token(text: bytes, rest: bytes) | Unbalanced

  /** A closing quote must be followed by a space or by nothing at all. */
  function Close(cur: bytes, rest: bytes): Scan {
    if rest != [] && !IsSpace(rest[0]) then Unbalanced else Token(cur, rest)
  }

  function ScanToken(mode: Mode, b: bytes, cur: bytes): (r: Scan)
    ensures r.Token? ==> |r.rest| <= |b|
    ensures r.Token? && b != [] ==> |r.rest| < |b|
    decreases |b|
  {
    match mode
    case Quoted =>
      if |b| >= 4 && b[0] == BACKSLASH && b[1] == LETTER_X && IsHexDigit(b[2]) && IsHexDigit(b[3]) then
        ScanToken(Quoted, b[4..], cur + [HexDigitToInt(b[2]) * 16 + HexDigitToInt(b[3])])
      else if |b| >= 2 && b[0] == BACKSLASH then ScanToken(Quoted, b[2..], cur + [Unescape(b[1])])
      else if b == [] then Unbalanced
      else if b[0] == QUOTE then Close(cur, b[1..])
      else ScanToken(Quoted, b[1..], cur + [b[0]])
    case Single =>
      if |b| >= 2 && b[0] == BACKSLASH && b[1] == APOSTROPHE then
        ScanToken(Single, b[2..], cur + [APOSTROPHE])
      else if b == [] then Unbalanced
      else if b[0] == APOSTROPHE then Close(cur, b[1..])
      else ScanToken(Single, b[1..], cur + [b[0]])
    case Plain =>
      if b == [] then Token(cur, b)
      else if b[0] in {SPACE, LF, CR, 9} then Token(cur, b[1..])
      else if b[0] == QUOTE then ScanToken(Quoted, b[1..], cur)
      else if b[0] == APOSTROPHE then ScanToken(Single, b[1..], cur)
      else ScanToken(Plain, b[1..], cur + [b[0]])
  }

  function SkipBlanks(b: bytes): (r: bytes)
    ensures |r| <= |b| && (r != [] ==> !IsSpace(r[0]))
  {
    if b != [] && IsSpace(b[0]) then SkipBlanks(b[1..]) else b
  }

  /** The arguments of a line, or None if its quotes are misplaced. */
  function Split(b: bytes): Option<seq<bytes>>
    decreases |b|
  {
    var line := SkipBlanks(b);
    if line == [] then Some([])
    else
      match ScanToken(Plain, line, [])
      case Unbalanced => None
      case Token(text, rest) =>
        match Split(rest)
        case None => None
        case Some(others) => Some([text] + others)
  }

  // ------------------------------------------------------------------------
  // The round trip

  lemma EscapeRead(c: byte, tail: bytes, cur: bytes)
    ensures ScanToken(Quoted, Escape(c) + tail, cur) == ScanToken(Quoted, tail, cur + [c])
  {
    var e, b := Escape(c), Escape(c) + tail;
    assert b[|e|..] == tail;
    assert b[0] == e[0];
    if |e| >= 2 {
      assert b[1] == e[1];
    }
    if |e| == 4 {
      assert b[2] == e[2] && b[3] == e[3];
      assert c / 16 * 16 + c % 16 == c;
    }
  }

  lemma {:induction false} EscapesRead(p: bytes, tail: bytes, cur: bytes)
    ensures ScanToken(Quoted, EscapeAll(p) + tail, cur) == ScanToken(Quoted, tail, cur + p)
  {
    if p == [] {
      assert EscapeAll(p) + tail == tail && cur + p == cur;
    } else {
      var k := |p| - 1;
      Assoc(EscapeAll(p[..k]), Escape(p[k]), tail);
      EscapeRead(p[k], tail, cur + p[..k]);
      EscapesRead(p[..k], Escape(p[k]) + tail, cur);
      assert cur + p[..k] + [p[k]] == cur + p;
    }
  }

  lemma ReprShape(p: bytes, rest: bytes)
    ensures Repr(p) + rest == [QUOTE] + (EscapeAll(p) + ([QUOTE] + rest))
  {
  }

  lemma QuoteOpens(tail: bytes)
    ensures SkipBlanks([QUOTE] + tail) == [QUOTE] + tail
    ensures ScanToken(Plain, [QUOTE] + tail, []) == ScanToken(Quoted, tail, [])
  {
    assert ([QUOTE] + tail)[1..] == tail;
  }

  lemma QuoteCloses(cur: bytes, rest: bytes)
    ensures ScanToken(Quoted, [QUOTE] + rest, cur) == Close(cur, rest)
  {
    assert ([QUOTE] + rest)[1..] == rest;
  }

  /** A quoted string that ends the line or is followed by a space is one token. */
  lemma ReprRead(p: bytes, rest: bytes)
    requires rest == [] || IsSpace(rest[0])
    ensures SkipBlanks(Repr(p) + rest) == Repr(p) + rest
    ensures ScanToken(Plain, Repr(p) + rest, []) == Token(p, rest)
  {
    var tail := [QUOTE] + rest;
    ReprShape(p, rest);
    QuoteOpens(EscapeAll(p) + tail);
    EscapesRead(p, tail, []);
    assert [] + p == p;
    QuoteCloses(p, rest);
  }

  function JoinReprs(args: seq<bytes>): bytes {
    if args == [] then []
    else if |args| == 1 then Repr(args[0])
    else Repr(args[0]) + [SPACE] + JoinReprs(args[1..])
  }

  /** Splitting a line of quoted strings gives exactly the strings, whatever their bytes. */
  lemma {:induction false} SplitOfJoin(args: seq<bytes>)
    ensures NUL !in JoinReprs(args)
    ensures Split(JoinReprs(args)) == Some(args)
  {
    if |args| == 1 {
      ReprRead(args[0], []);
      assert Repr(args[0]) + [] == Repr(args[0]);
      assert Split([]) == Some([]) && [args[0]] + [] == args;
    } else if |args| > 1 {
      var others := JoinReprs(args[1..]);
      var rest := [SPACE] + others;
      SplitOfJoin(args[1..]);
      ReprRead(args[0], rest);
      assert JoinReprs(args) == Repr(args[0]) + rest;
      assert rest[1..] == others;
      assert SkipBlanks(rest) == SkipBlanks(others);
      assert [args[0]] + args[1..] == args;
    }
  }

  // ------------------------------------------------------------------------
  // The loops of the code

  /** The character at p, or the NUL that ends the line. */
  function At(line: bytes, p: nat): byte {
    if p < |line| then line[p] else NUL
  }

  /** One step within double quotes, up to the character at q. */
  method QuotedStep(line: bytes, p: nat, current: bytes) returns (next: bytes, q: nat, done: bool, ok: bool)
    requires NUL !in line && p <= |line|
    ensures ok ==> p <= q < |line|
    ensures ScanToken(Quoted, line[p..], current)
         == if !ok then Unbalanced
            else if done then Token(next, line[q + 1..])
            else ScanToken(Quoted, line[q + 1..], next)
  {
    ghost var b := line[p..];
    var c := At(line, p);
    if c == BACKSLASH && At(line, p + 1) == LETTER_X
       && IsHexDigit(At(line, p + 2)) && IsHexDigit(At(line, p + 3)) {
      assert b[4..] == line[p + 4..];
      return current + [HexDigitToInt(line[p + 2]) * 16 + HexDigitToInt(line[p + 3])], p + 3, false, true;
    } else if c == BACKSLASH && At(line, p + 1) != NUL {
      assert b[2..] == line[p + 2..];
      return current + [Unescape(line[p + 1])], p + 1, false, true;
    } else if c == QUOTE {
      assert b[1..] == line[p + 1..];
      return current, p, true, At(line, p + 1) == NUL || IsSpace(At(line, p + 1));
    } else if c == NUL {
      return current, p, false, false;
    }
    assert b[1..] == line[p + 1..];
    return current + [c], p, false, true;
  }

  /** One step within single quotes. */
  method SingleStep(line: bytes, p: nat, current: bytes) returns (next: bytes, q: nat, done: bool, ok: bool)
    requires NUL !in line && p <= |line|
    ensures ok ==> p <= q < |line|
    ensures ScanToken(Single, line[p..], current)
         == if !ok then Unbalanced
            else if done then Token(next, line[q + 1..])
            else ScanToken(Single, line[q + 1..], next)
  {
    ghost var b := line[p..];
    var c := At(line, p);
    if c == BACKSLASH && At(line, p + 1) == APOSTROPHE {
      assert b[2..] == line[p + 2..];
      return current + [APOSTROPHE], p + 1, false, true;
    } else if c == APOSTROPHE {
      assert b[1..] == line[p + 1..];
      return current, p, true, At(line, p + 1) == NUL || IsSpace(At(line, p + 1));
    } else if c == NUL {
      return current, p, false, false;
    }
    assert b[1..] == line[p + 1..];
    return current + [c], p, false, true;
  }

  /** One step outside quotes. */
  method PlainStep(line: bytes, p: nat, current: bytes) returns (next: bytes, mode: Mode, done: bool)
    requires NUL !in line && p <= |line|
    ensures p == |line| ==> done && next == current && mode == Plain
    ensures ScanToken(Plain, line[p..], current)
         == (var rest := if p < |line| then line[p + 1..] else [];
             if done then Token(next, rest) else ScanToken(mode, rest, next))
  {
    ghost var b := line[p..];
    assert p < |line| ==> b[1..] == line[p + 1..];
    var c := At(line, p);
    if c in {SPACE, LF, CR, 9, NUL} {
      return current, Plain, true;
    } else if c == QUOTE {
      return current, Quoted, false;
    } else if c == APOSTROPHE {
      return current, Single, false;
    }
    return current + [c], Plain, false;
  }

  /** One step of the scan. */
  method TokenStep(line: bytes, start: nat, was: Mode, current: bytes)
    returns (next: bytes, p: nat, mode: Mode, done: bool, ok: bool)
    requires NUL !in line && start <= |line|
    ensures ok ==> start <= p <= |line| && (start == p ==> p == |line| && done && was == mode == Plain)
    ensures ScanToken(was, line[start..], current)
         == if !ok then Unbalanced else if done then Token(next, line[p..]) else ScanToken(mode, line[p..], next)
  {
    p, mode, ok := start, was, true;
    match was {
      case Quoted => next, p, done, ok := QuotedStep(line, start, current);
      case Single => next, p, done, ok := SingleStep(line, start, current);
      case Plain => next, mode, done := PlainStep(line, start, current);
    }
    if ok && At(line, p) != NUL {
      p := p + 1;
    }
  }

  /** Scan one token starting at p. */
  method GetToken(line: bytes, start: nat) returns (current: bytes, p: nat, ok: bool)
    requires NUL !in line && start < |line|
    ensures start < p <= |line| || !ok
    ensures ScanToken(Plain, line[start..], []) == if ok then Token(current, line[p..]) else Unbalanced
  {
    var mode, done := Plain, false;
    current, p, ok := [], start, true;
    ghost var goal := ScanToken(Plain, line[start..], []);
    while ok && !done
      invariant ok ==> start <= p <= |line| && (p == start ==> !done && mode == Plain)
      invariant goal == if !ok then Unbalanced
                        else if done then Token(current, line[p..])
                        else ScanToken(mode, line[p..], current)
      decreases ok && !done, if ok then |line| - p else 0
    {
      current, p, mode, done, ok := TokenStep(line, p, mode, current);
    }
  }

  function Prefixed(vector: seq<bytes>, r: Option<seq<bytes>>): Option<seq<bytes>> {
    if r.None? then None else Some(vector + r.value)
  }

  lemma SplitStep(before: bytes, line: bytes, text: bytes, rest: bytes, vector: seq<bytes>)
    requires SkipBlanks(before) == SkipBlanks(line) == line && line != []
    requires ScanToken(Plain, line, []) == Token(text, rest)
    ensures Prefixed(vector, Split(before)) == Prefixed(vector + [text], Split(rest))
  {
    var others := Split(rest);
    if others.Some? {
      assert vector + ([text] + others.value) == vector + [text] + others.value;
    }
  }

  /** `sdssplitargs`. */
  method SplitArgs(line: bytes) returns (r: Option<seq<bytes>>)
    requires NUL !in line
    ensures r == Split(line)
  {
    var p, vector := 0, [];
    assert line[0..] == line;
    assert Split(line).Some? ==> [] + Split(line).value == Split(line).value;
    while true
      invariant p <= |line|
      invariant Split(line) == Prefixed(vector, Split(line[p..]))
      decreases |line| - p
    {
      ghost var before := line[p..];
      while At(line, p) != NUL && IsSpace(At(line, p))
        invariant p <= |line| && SkipBlanks(line[p..]) == SkipBlanks(before)
        invariant |line| - p <= |before|
        decreases |line| - p
      {
        assert line[p..][1..] == line[p + 1..];
        p := p + 1;
      }
      if At(line, p) == NUL {
        assert line[p..] == [];
        assert vector + [] == vector;
        return Some(vector);
      }
      var current, next, ok := GetToken(line, p);
      if !ok {
        return None;
      }
      SplitStep(before, line[p..], current, line[next..], vector);
      vector, p := vector + [current], next;
    }
  }
}
