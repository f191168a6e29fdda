/** The reply protocol as a recursive-descent parser with three outcomes. This is
    the plain description that the resumable reader of Reader.dfy is proved against;
    it is as tolerant as the code is. */
module Resp {
  import opened Bytes
  import opened Decimal

  datatype ReplyType = TString | TArray | TInteger | TNil | TStatus | TError

  /** The value of a reply. Hollow is what the code builds for an array count below
      -1: an array object that announces a count but owns no element vector. */
  datatype Reply =
    | Status(text: bytes)
    | Failure(text: bytes)
    | Integer(value: int)
    | Bulk(text: bytes)
    | Nil
    | Array(items: seq<Reply>)
    | Hollow(count: int)

  datatype Outcome = Done(reply: Reply, rest: bytes) | Incomplete | Malformed

  /** Index of the deepest task slot; an array may not start there. */
  const LAST_SLOT: nat := 8

  function TypeOfByte(c: byte): Option<ReplyType> {
    if c == MINUS then Some(TError)
    else if c == PLUS then Some(TStatus)
    else if c == COLON then Some(TInteger)
    else if c == DOLLAR then Some(TString)
    else if c == STAR then Some(TArray)
    else None
  }

  /** The value of a one-line item whose text is b[..i]. */
  function LineReply(t: ReplyType, b: bytes, i: nat): Reply
    requires CrlfAt(b, i)
  {
    if t == TInteger then Integer(ReadLongLong(b))
    else if t == TStatus then Status(b[..i])
    else Failure(b[..i])
  }

  /** The elements of an array of the given total that are still to come. */
  function Elements(depth: nat, total: nat, sofar: seq<Reply>, b: bytes): (o: Outcome)
    ensures o.Done? ==> |o.rest| <= |b|
    decreases |b|, 2
  {
    if |sofar| >= total then Done(Array(sofar), b)
    else
      match Parse(depth, b)
      case Done(v, rest) => Elements(depth, total, sofar + [v], rest)
      case other => other
  }

  /** The part of an item after its type byte. */
  function Body(depth: nat, t: ReplyType, b: bytes): (o: Outcome)
    ensures o.Done? ==> |o.rest| < |b|
    decreases |b|, 0
  {
    if t == TArray && depth == LAST_SLOT then Malformed
    else
      match NewlineAt(b)
      case None => Incomplete
      case Some(i) =>
        var after := b[i + 2..];
        if t == TString then
          var n := ReadLongLong(b);
          if n < 0 then Done(Nil, after)
          else if n + 2 <= |after| then Done(Bulk(after[..n]), after[n + 2..])
          else Incomplete
        else if t == TArray then
          var n := ReadLongLong(b);
          if n == -1 then Done(Nil, after)
          else if n < 0 then Done(Hollow(n), after)
          else Elements(depth + 1, n, [], after)
        else Done(LineReply(t, b, i), after)
  }

  /** One item, type byte first, in a task slot at the given depth. */
  function Parse(depth: nat, b: bytes): (o: Outcome)
    ensures o.Done? ==> |o.rest| < |b|
    decreases |b|, 1
  {
    if b == [] then Incomplete
    else
      match TypeOfByte(b[0])
      case None => Malformed
      case Some(t) => Body(depth, t, b[1..])
  }

  // ------------------------------------------------------------------------
  // More input never changes what was already decided.

  /** o decided on some input; o' is the outcome on that input followed by m. */
  predicate Extends(o: Outcome, o': Outcome, m: bytes) {
    match o
    case Done(v, rest) => o' == Done(v, rest + m)
    case Malformed => o' == Malformed
    case Incomplete => true
  }

  /** A complete line, its text and its number are the same with more input behind. */
  lemma HeadExtends(b: bytes, m: bytes, i: nat)
    requires NewlineAt(b) == Some(i)
    ensures NewlineAt(b + m) == Some(i)
    ensures (b + m)[..i] == b[..i] && (b + m)[i + 2..] == b[i + 2..] + m
    ensures ReadLongLong(b + m) == ReadLongLong(b)
  {
    NewlineExtends(b, m);
    ReadLongLongExtends(b, m);
  }

  lemma {:induction false} ElementsExtend(depth: nat, total: nat, sofar: seq<Reply>, b: bytes, m: bytes)
    ensures Extends(Elements(depth, total, sofar, b), Elements(depth, total, sofar, b + m), m)
    decreases |b|, 2
  {
    if |sofar| < total {
      ParseExtends(depth, b, m);
      if Parse(depth, b).Done? {
        var Done(v, rest) := Parse(depth, b);
        ElementsExtend(depth, total, sofar + [v], rest, m);
      }
    }
  }

  lemma {:induction false} BodyExtends(depth: nat, t: ReplyType, b: bytes, m: bytes)
    ensures Extends(Body(depth, t, b), Body(depth, t, b + m), m)
    decreases |b|, 0
  {
    if (t == TArray && depth == LAST_SLOT) || NewlineAt(b).None? {
      return;
    }
    var i := NewlineAt(b).value;
    var after := b[i + 2..];
    HeadExtends(b, m, i);
    if t == TArray && ReadLongLong(b) >= 0 {
      ElementsExtend(depth + 1, ReadLongLong(b), [], after, m);
    } else if t == TString && 0 <= ReadLongLong(b) && ReadLongLong(b) + 2 <= |after| {
      var n := ReadLongLong(b);
      assert (after + m)[..n] == after[..n];
      assert (after + m)[n + 2..] == after[n + 2..] + m;
    }
  }

  lemma {:induction false} ParseExtends(depth: nat, b: bytes, m: bytes)
    ensures Extends(Parse(depth, b), Parse(depth, b + m), m)
    decreases |b|, 1
  {
    if b != [] && TypeOfByte(b[0]).Some? {
      assert (b + m)[1..] == b[1..] + m;
      BodyExtends(depth, TypeOfByte(b[0]).value, b[1..], m);
    }
  }

  // ------------------------------------------------------------------------
  // What is left to do when parsing stops in the middle.

  /** An array under construction: how many elements it will have and those it has. */
  datatype Frame = Frame(total: nat, items: seq<Reply>)

  /** Hand the outcome of the current item to the innermost open array, finish that
      array, and go on outwards. */
  function Resume(frames: seq<Frame>, o: Outcome): Outcome {
    if o.Done? && |frames| > 0 then
      var outer, f := frames[..|frames| - 1], frames[|frames| - 1];
      Resume(outer, Elements(|frames|, f.total, f.items + [o.reply], o.rest))
    else o
  }

  /** The outcome that a suspended parse will have on the unread bytes b. */
  function Future(frames: seq<Frame>, t: Option<ReplyType>, b: bytes): Outcome {
    Resume(frames, if t.Some? then Body(|frames|, t.value, b) else Parse(|frames|, b))
  }

  /** A finished item goes into an array that needs still more: the next item is next. */
  lemma ResumeNext(frames: seq<Frame>, v: Reply)
    requires |frames| > 0
    requires var f := frames[|frames| - 1]; |f.items| + 1 < f.total
    ensures var f := frames[|frames| - 1];
            var frames' := frames[..|frames| - 1] + [f.(items := f.items + [v])];
            forall b :: Resume(frames, Done(v, b)) == Future(frames', None, b)
  {
    var outer, f := frames[..|frames| - 1], frames[|frames| - 1];
    var frames' := outer + [f.(items := f.items + [v])];
    assert frames'[..|frames'| - 1] == outer;
    forall b
      ensures Resume(frames, Done(v, b)) == Future(frames', None, b)
    {
      assert Resume(frames, Done(v, b)) == Resume(outer, Elements(|frames|, f.total, f.items + [v], b));
    }
  }

  /** A finished item completes its array, which is then itself a finished item. */
  lemma ResumeLast(frames: seq<Frame>, v: Reply)
    requires |frames| > 0
    requires var f := frames[|frames| - 1]; |f.items| + 1 == f.total
    ensures var f := frames[|frames| - 1];
            forall b :: Resume(frames, Done(v, b))
                     == Resume(frames[..|frames| - 1], Done(Array(f.items + [v]), b))
  {
  }

  /** Starting an array of n > 0 elements opens a frame. */
  lemma ResumeOpen(frames: seq<Frame>, n: nat, b: bytes)
    requires n > 0
    ensures Resume(frames, Elements(|frames| + 1, n, [], b)) == Future(frames + [Frame(n, [])], None, b)
  {
    var frames' := frames + [Frame(n, [])];
    assert frames'[..|frames'| - 1] == frames;
    var o := Parse(|frames'|, b);
    if o.Done? {
      assert [] + [o.reply] == [o.reply];
    }
  }

  lemma {:induction false} ResumeShrinks(frames: seq<Frame>, o: Outcome)
    requires o.Done? && Resume(frames, o).Done?
    ensures |Resume(frames, o).rest| <= |o.rest|
    decreases |frames|
  {
    if |frames| > 0 {
      var outer, f := frames[..|frames| - 1], frames[|frames| - 1];
      ResumeShrinks(outer, Elements(|frames|, f.total, f.items + [o.reply], o.rest));
    }
  }

  /** A reply always costs input. */
  lemma FutureShrinks(frames: seq<Frame>, t: Option<ReplyType>, b: bytes)
    requires Future(frames, t, b).Done?
    ensures |Future(frames, t, b).rest| < |b|
  {
    var o := if t.Some? then Body(|frames|, t.value, b) else Parse(|frames|, b);
    ResumeShrinks(frames, o);
  }

  lemma FutureFresh(b: bytes)
    ensures Future([], None, b) == Parse(0, b)
  {
  }

  lemma {:induction false} ResumeExtends(frames: seq<Frame>, o: Outcome, o': Outcome, m: bytes)
    requires Extends(o, o', m)
    ensures Extends(Resume(frames, o), Resume(frames, o'), m)
    decreases |frames|
  {
    if o.Done? && |frames| > 0 {
      var outer, f := frames[..|frames| - 1], frames[|frames| - 1];
      var items := f.items + [o.reply];
      ElementsExtend(|frames|, f.total, items, o.rest, m);
      ResumeExtends(outer, Elements(|frames|, f.total, items, o.rest),
        Elements(|frames|, f.total, items, o'.rest), m);
    }
  }

  /** A suspended parse that has its answer keeps it when more input arrives. */
  lemma FutureExtends(frames: seq<Frame>, t: Option<ReplyType>, b: bytes, m: bytes)
    ensures Extends(Future(frames, t, b), Future(frames, t, b + m), m)
  {
    if t.Some? {
      BodyExtends(|frames|, t.value, b, m);
      ResumeExtends(frames, Body(|frames|, t.value, b), Body(|frames|, t.value, b + m), m);
    } else {
      ParseExtends(|frames|, b, m);
      ResumeExtends(frames, Parse(|frames|, b), Parse(|frames|, b + m), m);
    }
  }
}
