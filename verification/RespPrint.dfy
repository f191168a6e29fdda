/** The protocol text of a reply, and the proof that the parser reads it back. */
module RespPrint {
  import opened Bytes
  import opened Decimal
  import opened Resp
  import opened Session

  function Tag(v: Reply): ReplyType {
    match v
    case Status(_) => TStatus
    case Failure(_) => TError
    case Integer(_) => TInteger
    case Bulk(_) | Nil => TString
    case Array(_) | Hollow(_) => TArray
  }

  function TagByte(t: ReplyType): (c: byte)
    requires t != TNil
    ensures TypeOfByte(c) == Some(t)
  {
    match t
    case TStatus => PLUS
    case TError => MINUS
    case TInteger => COLON
    case TString => DOLLAR
    case TArray => STAR
  }

  function PrintAll(vs: seq<Reply>): bytes
    decreases vs, 0
  {
    if vs == [] then [] else Print(vs[0]) + PrintAll(vs[1..])
  }

  function Payload(v: Reply): bytes
    decreases v, 0
  {
    match v
    case Status(text) => text + CRLF
    case Failure(text) => text + CRLF
    case Integer(n) => DecInt(n) + CRLF
    case Bulk(text) => DecInt(|text|) + CRLF + (text + CRLF)
    case Nil => DecInt(-1) + CRLF
    case Array(vs) => DecInt(|vs|) + CRLF + PrintAll(vs)
    case Hollow(n) => DecInt(n) + CRLF
  }

  function Print(v: Reply): (s: bytes)
    ensures |s| > 0
    decreases v, 1
  {
    [TagByte(Tag(v))] + Payload(v)
  }

  /** Values that have a protocol text of their own: a line may not contain a line
      end, and a hollow array announces a count below -1. */
  ghost predicate Printable(v: Reply)
    decreases v
  {
    match v
    case Status(text) => forall i :: !CrlfAt(text, i)
    case Failure(text) => forall i :: !CrlfAt(text, i)
    case Hollow(n) => n < -1
    case Array(vs) => forall i :: 0 <= i < |vs| ==> Printable(vs[i])
    case _ => true
  }

  function MaxDepth(vs: seq<Reply>): nat
    decreases vs
  {
    if vs == [] then 0
    else
      var first, others := Depth(vs[0]), MaxDepth(vs[1..]);
      if first > others then first else others
  }

  /** How many arrays are nested in each other. */
  function Depth(v: Reply): nat
    decreases v
  {
    match v
    case Array(vs) => 1 + MaxDepth(vs)
    case Hollow(_) => 1
    case _ => 0
  }

  /** A line is read back: its text, its number, and what comes after it. */
  lemma LineOf(text: bytes, m: bytes)
    requires forall i :: !CrlfAt(text, i)
    ensures NewlineAt(text + CRLF + m) == Some(|text|)
    ensures (text + CRLF + m)[..|text|] == text && (text + CRLF + m)[|text| + 2..] == m
  {
    var b := text + CRLF + m;
    assert b[|text|] == CR && b[|text| + 1] == LF;
    forall i | 0 <= i < |text|
      ensures !CrlfAt(b, i)
    {
      assert !CrlfAt(text, i);
    }
    NewlineUnique(b, |text|);
  }

  lemma NumberLine(n: int, m: bytes)
    ensures NewlineAt(DecInt(n) + CRLF + m) == Some(|DecInt(n)|)
    ensures (DecInt(n) + CRLF + m)[|DecInt(n)| + 2..] == m
    ensures ReadLongLong(DecInt(n) + CRLF + m) == n
  {
    LineOf(DecInt(n), m);
    ReadOfDec(n, m);
  }

  lemma TextItem(depth: nat, t: ReplyType, text: bytes, m: bytes)
    requires t in {TStatus, TError} && forall i :: !CrlfAt(text, i)
    ensures Body(depth, t, text + CRLF + m) == Done(if t == TStatus then Status(text) else Failure(text), m)
  {
    LineOf(text, m);
  }

  lemma IntegerItem(depth: nat, n: int, m: bytes)
    ensures Body(depth, TInteger, DecInt(n) + CRLF + m) == Done(Integer(n), m)
  {
    NumberLine(n, m);
  }

  lemma BulkItem(depth: nat, text: bytes, m: bytes)
    ensures Body(depth, TString, DecInt(|text|) + CRLF + (text + CRLF + m)) == Done(Bulk(text), m)
  {
    var after := text + CRLF + m;
    NumberLine(|text|, after);
    assert after[..|text|] == text && after[|text| + 2..] == m;
  }

  lemma NilItem(depth: nat, m: bytes)
    ensures Body(depth, TString, DecInt(-1) + CRLF + m) == Done(Nil, m)
  {
    NumberLine(-1, m);
  }

  lemma ArrayItem(depth: nat, n: int, m: bytes)
    requires n != -1
    ensures Body(depth, TArray, DecInt(n) + CRLF + m)
         == if depth == LAST_SLOT then Malformed
            else if n < 0 then Done(Hollow(n), m)
            else Elements(depth + 1, n, [], m)
  {
    NumberLine(n, m);
  }

  /** The parser reads a printed reply back, whatever follows it, if and only if its
      arrays fit into the slots that are left; if they do not, it reports an error. */
  lemma {:induction false} ParseOfPrint(depth: nat, v: Reply, m: bytes)
    requires Printable(v) && depth <= LAST_SLOT
    ensures Parse(depth, Print(v) + m) == if depth + Depth(v) <= LAST_SLOT then Done(v, m) else Malformed
    decreases v, 1
  {
    assert (Print(v) + m)[1..] == Payload(v) + m;
    BodyOfPayload(depth, v, m);
  }

  lemma MoveOver(sofar: seq<Reply>, vs: seq<Reply>)
    requires vs != []
    ensures sofar + [vs[0]] + vs[1..] == sofar + vs
  {
  }

  lemma {:induction false} ElementsOfPrint(depth: nat, sofar: seq<Reply>, vs: seq<Reply>, m: bytes)
    requires depth <= LAST_SLOT && forall i :: 0 <= i < |vs| ==> Printable(vs[i])
    ensures Elements(depth, |sofar| + |vs|, sofar, PrintAll(vs) + m)
         == if depth + MaxDepth(vs) <= LAST_SLOT then Done(Array(sofar + vs), m) else Malformed
    decreases vs, 0
  {
    if vs == [] {
      assert sofar + vs == sofar && PrintAll(vs) + m == m;
    } else {
      Assoc(Print(vs[0]), PrintAll(vs[1..]), m);
      ParseOfPrint(depth, vs[0], PrintAll(vs[1..]) + m);
      ElementsOfPrint(depth, sofar + [vs[0]], vs[1..], m);
      MoveOver(sofar, vs);
    }
  }

  lemma {:induction false} BodyOfPayload(depth: nat, v: Reply, m: bytes)
    requires Printable(v) && depth <= LAST_SLOT
    ensures Body(depth, Tag(v), Payload(v) + m) == if depth + Depth(v) <= LAST_SLOT then Done(v, m) else Malformed
    decreases v, 0
  {
    match v
    case Status(text) => TextItem(depth, TStatus, text, m);
    case Failure(text) => TextItem(depth, TError, text, m);
    case Integer(n) => IntegerItem(depth, n, m);
    case Nil => NilItem(depth, m);
    case Hollow(n) => ArrayItem(depth, n, m);
    case Bulk(text) =>
      assert Payload(v) + m == DecInt(|text|) + CRLF + (text + CRLF + m);
      BulkItem(depth, text, m);
    case Array(vs) =>
      assert Payload(v) + m == DecInt(|vs|) + CRLF + (PrintAll(vs) + m);
      ArrayItem(depth, |vs|, PrintAll(vs) + m);
      if depth < LAST_SLOT {
        ElementsOfPrint(depth + 1, [], vs, m);
        assert [] + vs == vs;
      }
  }

  /** A stream of printed replies gives exactly those replies. */
  lemma {:induction false} TranscriptOfPrint(vs: seq<Reply>)
    requires forall i :: 0 <= i < |vs| ==> Printable(vs[i]) && Depth(vs[i]) <= LAST_SLOT
    ensures Transcript(PrintAll(vs)) == Log(vs, false)
  {
    if vs != [] {
      ParseOfPrint(0, vs[0], PrintAll(vs[1..]));
      TranscriptOfPrint(vs[1..]);
      assert [vs[0]] + vs[1..] == vs;
    }
  }

  // ------------------------------------------------------------------------
  // A reader at rest

  lemma {:induction false} ElementsMakeArrays(depth: nat, total: nat, sofar: seq<Reply>, b: bytes)
    ensures var o := Elements(depth, total, sofar, b); o.Done? ==> o.reply.Array?
    decreases |b|
  {
    if |sofar| < total && Parse(depth, b).Done? {
      var o := Parse(depth, b);
      ElementsMakeArrays(depth, total, sofar + [o.reply], o.rest);
    }
  }

  /** What comes out of open arrays is an array. */
  lemma {:induction false} ResumeMakesArrays(frames: seq<Frame>, o: Outcome)
    requires frames != []
    ensures Resume(frames, o).Done? ==> Resume(frames, o).reply.Array?
  {
    if o.Done? {
      var outer, f := frames[..|frames| - 1], frames[|frames| - 1];
      ElementsMakeArrays(|frames|, f.total, f.items + [o.reply], o.rest);
      if outer != [] {
        ResumeMakesArrays(outer, Elements(|frames|, f.total, f.items + [o.reply], o.rest));
      }
    }
  }

  /** An item of a type is never both an integer and a status. */
  lemma TypeDecides(t: ReplyType, b: bytes, b': bytes)
    ensures var o, o' := Body(0, t, b), Body(0, t, b');
      !(o.Done? && o'.Done? && o.reply.Integer? && o'.reply.Status?)
  {
    if t == TArray {
      if NewlineAt(b).Some? && ReadLongLong(b) >= 0 {
        ElementsMakeArrays(1, ReadLongLong(b), [], b[NewlineAt(b).value + 2..]);
      }
    }
  }

  /** The log of one printed reply tells the reply. */
  lemma OneReply(v: Reply, o: Outcome)
    requires Printable(v) && Depth(v) <= LAST_SLOT && LogFrom(o) == Transcript(Print(v))
    ensures o.Done? && o.reply == v
  {
    TranscriptOfPrint([v]);
    assert PrintAll([v]) == Print(v);
    assert LogFrom(o).replies == [v];
  }

  /** A suspended parse that treats everything to come as a new stream is none: no array
      is open, no type has been read, and nothing is left over. */
  lemma AtRest(frames: seq<Frame>, t: Option<ReplyType>, b: bytes)
    requires forall m :: LogFrom(Future(frames, t, b + m)) == Transcript(m)
    ensures frames == [] && t == None && b == []
  {
    var m, m' := Print(Integer(0)), Print(Status([]));
    var o, o' := Future(frames, t, b + m), Future(frames, t, b + m');
    OneReply(Integer(0), o);
    OneReply(Status([]), o');
    if frames != [] {
      ResumeMakesArrays(frames, if t.Some? then Body(|frames|, t.value, b + m) else Parse(|frames|, b + m));
    } else if t.Some? {
      TypeDecides(t.value, b + m, b + m');
    } else if b != [] {
      TypeDecides(TypeOfByte(b[0]).value, (b + m)[1..], (b + m')[1..]);
    }
  }
}
