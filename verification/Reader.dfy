/** The resumable reply reader: a byte buffer with a cursor, a stack of nine task
    slots, and reply objects that are filled in place while their elements arrive. */
module Reader {
  import opened Bytes
  import opened Decimal
  import opened Resp
  import Sds

  const ERR_PROTOCOL := 4
  const COMPACT_AT := 1024

  /** A reply object on the heap. Its fields are set when it is created; only the
      slots of its element vector are written later, one per finished element. */
  class ReplyObject {
    const kind: ReplyType
    const integer: int
    const str: bytes
    const elements: int
    const element: array?<ReplyObject?>

    constructor (kind: ReplyType, integer: int, str: bytes, elements: int, element: array?<ReplyObject?>)
      ensures this.kind == kind && this.integer == integer && this.str == str
      ensures this.elements == elements && this.element == element
    {
      this.kind, this.integer, this.str := kind, integer, str;
      this.elements, this.element := elements, element;
    }
  }

  type Slots = array<ReplyObject?>

  /** Object o and what it points to spell the reply v; all vectors are in `done`. */
  ghost predicate Represents(o: ReplyObject?, v: Reply, done: set<Slots>)
    reads done
    decreases v
  {
    && o != null
    && match v
       case Status(text) => o.kind == TStatus && o.str == text
       case Failure(text) => o.kind == TError && o.str == text
       case Bulk(text) => o.kind == TString && o.str == text
       case Integer(n) => o.kind == TInteger && o.integer == n
       case Nil => o.kind == TNil
       case Hollow(n) => o.kind == TArray && o.elements == n < 0 && o.element == null
       case Array(vs) =>
         && o.kind == TArray && o.elements == |vs|
         && if |vs| == 0 then o.element == null
            else
              && o.element != null && o.element in done && o.element.Length == |vs|
              && forall i :: 0 <= i < |vs| ==> Represents(o.element[i], vs[i], done)
  }

  /** The first slots of the vector hold the replies vs. */
  ghost predicate Holds(slots: Slots, vs: seq<Reply>, done: set<Slots>)
    reads slots, done
  {
    && |vs| <= slots.Length
    && forall i :: 0 <= i < |vs| ==> Represents(slots[i], vs[i], done)
  }

  lemma {:induction false} RepresentsMonotone(o: ReplyObject?, v: Reply, small: set<Slots>, large: set<Slots>)
    requires Represents(o, v, small) && small <= large
    ensures Represents(o, v, large)
    decreases v
  {
    if v.Array? && |v.items| > 0 {
      forall i | 0 <= i < |v.items|
        ensures Represents(o.element[i], v.items[i], large)
      {
        RepresentsMonotone(o.element[i], v.items[i], small, large);
      }
    }
  }

  lemma HoldsMonotone(slots: Slots, vs: seq<Reply>, small: set<Slots>, large: set<Slots>)
    requires Holds(slots, vs, small) && small <= large
    ensures Holds(slots, vs, large)
  {
    forall i | 0 <= i < |vs|
      ensures Represents(slots[i], vs[i], large)
    {
      RepresentsMonotone(slots[i], vs[i], small, large);
    }
  }

  /** Position of the first CR LF, found by the two nested scans of the source. */
  method SeekNewline(s: bytes) returns (r: Option<nat>)
    ensures r == NewlineAt(s)
  {
    var pos: int := 0;
    var last := |s| - 1;
    while pos < last
      invariant 0 <= pos && (pos <= last || |s| == 0)
      invariant forall i :: 0 <= i < pos ==> !CrlfAt(s, i)
    {
      while pos < last && s[pos] != CR
        invariant 0 <= pos <= last
        invariant forall i :: 0 <= i < pos ==> !CrlfAt(s, i)
      {
        pos := pos + 1;
      }
      if pos == last {
        NewlineNone(s);
        return None;
      }
      if s[pos + 1] == LF {
        NewlineUnique(s, pos);
        return Some(pos);
      }
      pos := pos + 1;
    }
    NewlineNone(s);
    return None;
  }

  /** The number at the front of s, read digit by digit up to the first CR. */
  method ScanLongLong(s: bytes) returns (n: int)
    requires CR in s
    ensures n == ReadLongLong(s)
  {
    var v: nat, mult, i := 0, 1, 0;
    if s[0] == MINUS {
      mult, i := -1, 1;
    } else if s[0] == PLUS {
      i := 1;
    }
    ghost var body := s[i..];
    assert CR in body;
    while s[i] != CR
      invariant 0 <= i < |s| && CR in s[i..]
      invariant Digits(s[i..], v) == Digits(body, 0)
      decreases |s| - i
    {
      if !IsDigit(s[i]) {
        return -1;
      }
      assert s[i..][1..] == s[i + 1..];
      v, i := v * 10 + (s[i] - 48), i + 1;
    }
    return mult * v;
  }

  /** A slot of the parse stack; `parent` is the index of the enclosing slot or -1. */
  datatype Task = Task(kind: Option<ReplyType>, elements: int, idx: int, obj: ReplyObject?, parent: int)

  class Reader {
    var err: int
    var buf: bytes
    var pos: nat
    var len: nat
    const rstack: array<Task>
    var ridx: int
    var reply: ReplyObject?

    /** The arrays under construction, outermost first, as values and as vectors. */
    ghost var frames: seq<Frame>
    ghost var open: seq<Slots>
    /** Vectors that may still be written to. */
    ghost var live: set<Slots>
    /** Vectors of finished arrays, and the value of a reply not yet handed out. */
    ghost var done: set<Slots>
    ghost var finished: Reply

    /** Slot i is an array under construction and slot i + 1 works on its next element. */
    ghost predicate Shape(i: nat)
      requires |frames| == |open| && i < |open| && i + 1 < rstack.Length
      reads this`frames, this`open, this`live, rstack, live
    {
      var task, next, f := rstack[i], rstack[i + 1], frames[i];
      && open[i] in live
      && task.kind == Some(TArray)
      && task.obj != null && task.obj.kind == TArray && task.obj.element == open[i]
      && task.elements == task.obj.elements == open[i].Length == f.total
      && next.parent == i && next.idx == |f.items| < f.total
      && (i + 1 < |open| ==> open[i][next.idx] == next.obj)
    }

    /** ... and the elements it has so far are in place. */
    ghost predicate Level(i: nat)
      requires |frames| == |open| && i < |open| && i + 1 < rstack.Length
      reads this`frames, this`open, this`live, this`done, rstack, done, live
    {
      Shape(i) && Holds(open[i], frames[i].items, done)
    }

    /** The stack is in order; this does not depend on the buffer. */
    ghost predicate Stack()
      reads this`ridx, this`reply, this`frames, this`open, this`live, this`done, this`finished
      reads rstack, done, live
    {
      && rstack.Length == LAST_SLOT + 1
      && live !! done
      && -1 <= ridx <= LAST_SLOT
      && |frames| == |open| == (if ridx < 0 then 0 else ridx)
      && (ridx == -1 && reply != null ==> Represents(reply, finished, done))
      && (ridx >= 0 ==> rstack[0].parent == -1 && rstack[ridx].kind != Some(TNil))
      && (ridx > 0 ==> reply == rstack[0].obj)
      && (forall i :: 0 <= i < ridx ==> Level(i))
      && (forall i, j :: 0 <= i < j < ridx ==> open[i] != open[j])
    }

    ghost predicate Valid()
      reads this, rstack, done, live
    {
      && pos <= len == |buf|
      && (err != 0 ==> ridx == -1 && reply == null && len == 0)
      && Stack()
    }

    /** The bytes fed and not yet consumed. */
    ghost function Unread(): bytes
      requires pos <= |buf|
      reads this
    {
      buf[pos..]
    }

    /** The type of the current item, if its type byte has been read. */
    ghost function Kind(): Option<ReplyType>
      requires Valid()
      reads this, rstack, done, live
    {
      if ridx == -1 then None else rstack[ridx].kind
    }

    /** What the reader will report once m has been fed as well. */
    ghost function Ahead(m: bytes): Outcome
      requires Valid()
      reads this, rstack, done, live
    {
      if ridx == -1 && reply != null then Done(finished, Unread() + m)
      else Future(frames, Kind(), Unread() + m)
    }

    /** Whatever is fed next, the reader will report what a parse suspended in the
        given frames, item type and unread bytes would. */
    ghost predicate Promises(fs: seq<Frame>, t: Option<ReplyType>, b: bytes)
      requires Valid()
      reads this, rstack, done, live
    {
      forall m :: Ahead(m) == Future(fs, t, b + m)
    }

    /** Object o sits where its parent array expects the current item, if there is one. */
    ghost predicate Placed(o: ReplyObject?)
      requires Valid() && ridx >= 0
      reads this, rstack, done, live
    {
      ridx > 0 ==> (assert Level(ridx - 1); open[ridx - 1][rstack[ridx].idx] == o)
    }

    /** The state between calls. */
    ghost predicate Ready()
      reads this, rstack, done, live
    {
      && Valid()
      && (ridx <= 0 ==> reply == null)
      && !(ridx == LAST_SLOT && Kind() == Some(TArray))
    }

    constructor ()
      ensures Ready() && fresh(rstack) && live == {} && done == {}
      ensures err == 0 && ridx == -1 && reply == null && Unread() == []
    {
      err, buf, pos, len := 0, [], 0, 0;
      rstack := new Task[LAST_SLOT + 1](_ => Task(None, -1, -1, null, -1));
      ridx, reply := -1, null;
      frames, open, live, done, finished := [], [], {}, {}, Nil;
    }

    method SetError(kind: int)
      requires Valid() && kind != 0
      modifies this
      ensures Valid() && err == kind && done == old(done) && live == old(live)
    {
      reply := null;
      buf, pos, len := [], 0, 0;
      ridx := -1;
      err := kind;
      frames, open := [], [];
    }

    /** Store a new object in its parent's element vector, if it has a parent. */
    method Attach(o: ReplyObject)
      requires Valid() && ridx >= 0
      modifies live
      ensures Valid()
      ensures Placed(o)
    {
      var task := rstack[ridx];
      if task.parent >= 0 {
        assert Level(ridx - 1);
        var parent := rstack[task.parent].obj;
        assert parent.kind == TArray;
        label before:
        parent.element[task.idx] := o;
        forall i | 0 <= i < ridx
          ensures Level(i)
        {
          assert old@before(Level(i));
          forall j | 0 <= j < |frames[i].items|
            ensures Represents(open[i][j], frames[i].items[j], done)
          {
            assert old@before(Represents(open[i][j], frames[i].items[j], done));
          }
        }
      }
    }

    method CreateString(t: ReplyType, str: bytes) returns (o: ReplyObject)
      requires Valid() && ridx >= 0 && t in {TString, TStatus, TError}
      modifies live
      ensures Valid() && Placed(o)
      ensures Represents(o, if t == TString then Bulk(str) else if t == TStatus then Status(str) else Failure(str),
                         done)
    {
      o := new ReplyObject(t, 0, str, 0, null);
      Attach(o);
    }

    method CreateInteger(value: int) returns (o: ReplyObject)
      requires Valid() && ridx >= 0
      modifies live
      ensures Valid() && Placed(o)
      ensures Represents(o, Integer(value), done)
    {
      o := new ReplyObject(TInteger, value, [], 0, null);
      Attach(o);
    }

    method CreateNil() returns (o: ReplyObject)
      requires Valid() && ridx >= 0
      modifies live
      ensures Valid() && Placed(o)
      ensures Represents(o, Nil, done)
    {
      o := new ReplyObject(TNil, 0, [], 0, null);
      Attach(o);
    }

    /** An array object with n empty element slots, or none when n is not positive. */
    method CreateArray(n: int) returns (o: ReplyObject)
      requires Valid() && ridx >= 0
      modifies live
      ensures Valid() && Placed(o)
      ensures n <= 0 ==> Represents(o, if n == 0 then Array([]) else Hollow(n), done)
      ensures n > 0 ==> o.kind == TArray && o.elements == n
      ensures n > 0 ==> o.element != null && fresh(o.element) && o.element.Length == n
    {
      var element: array?<ReplyObject?> := null;
      if n > 0 {
        element := new ReplyObject?[n](_ => null);
      }
      o := new ReplyObject(TArray, 0, [], n, element);
      Attach(o);
    }

    /** Slot `ridx` holds the last element of its array: then the whole array is there,
        and every other open array can do with the finished set that has it in. */
    lemma ArrayComplete(cur: ReplyObject, value: Reply, more: set<Slots>)
      requires Valid() && ridx > 0
      requires Represents(cur, value, done) && Placed(cur)
      requires rstack[ridx].idx == rstack[ridx - 1].elements - 1
      requires more == done + {open[ridx - 1]}
      ensures Represents(rstack[ridx - 1].obj, Array(frames[ridx - 1].items + [value]), more)
      ensures forall i :: 0 <= i < ridx - 1 ==> Holds(open[i], frames[i].items, more)
    {
      assert Level(ridx - 1);
      var slots, vs := open[ridx - 1], frames[ridx - 1].items;
      RepresentsMonotone(cur, value, done, more);
      HoldsMonotone(slots, vs, done, more);
      forall i | 0 <= i < |vs| + 1
        ensures Represents(slots[i], (vs + [value])[i], more)
      {
      }
      forall i | 0 <= i < ridx - 1
        ensures Holds(open[i], frames[i].items, more)
      {
        assert Level(i);
        HoldsMonotone(open[i], frames[i].items, done, more);
      }
    }

    /** Leave slot `ridx`; the array around it is still under construction. */
    method PopSlot()
      requires Valid() && err == 0 && ridx > 0
      modifies this`ridx, this`frames, this`open
      ensures Valid() && ridx == old(ridx) - 1
      ensures frames == old(frames)[..ridx] && open == old(open)[..ridx]
      ensures Placed(rstack[ridx].obj) && old(open)[ridx] !in open
    {
      assert Level(ridx - 1);
      ridx := ridx - 1;
      frames, open := frames[..ridx], open[..ridx];
      forall i | 0 <= i < ridx
        ensures Level(i)
      {
        assert old(Level(i));
      }
      ghost var k := ridx - 1;
      assert k >= 0 ==> old(Level(k));
    }

    /** A vector that is filled, and in no slot, counts as finished. */
    ghost method Retire(slots: Slots)
      requires Valid() && ridx >= 0 && slots !in open
      requires forall i :: 0 <= i < ridx ==> Holds(open[i], frames[i].items, done + {slots})
      modifies this`live, this`done
      ensures Valid() && done == old(done) + {slots} && live <= old(live)
    {
      live, done := live - {slots}, done + {slots};
      forall i | 0 <= i < ridx
        ensures Level(i)
      {
        assert old(Level(i));
      }
    }

    /** Leave slot `ridx`, and its array counts as finished. */
    method DropSlot()
      requires Valid() && err == 0 && ridx > 0
      requires forall i :: 0 <= i < ridx - 1 ==> Holds(open[i], frames[i].items, done + {open[ridx - 1]})
      modifies this`ridx, this`frames, this`open, this`live, this`done
      ensures Valid() && ridx == old(ridx) - 1 && done == old(done) + {old(open)[ridx]} && live <= old(live)
      ensures frames == old(frames)[..ridx] && open == old(open)[..ridx]
      ensures Placed(rstack[ridx].obj)
    {
      PopSlot();
      Retire(old(open)[ridx]);
    }

    /** Slot `ridx` holds the last element of its array, so the array itself is a
        finished object of value `whole`: leave the slot. */
    method LeaveArray(ghost cur: ReplyObject, ghost value: Reply) returns (ghost whole: Reply)
      requires Valid() && err == 0 && ridx > 0
      requires Represents(cur, value, done) && Placed(cur)
      requires rstack[ridx].idx == rstack[ridx - 1].elements - 1
      modifies this`ridx, this`frames, this`open, this`live, this`done
      ensures Valid() && ridx == old(ridx) - 1 && old(done) <= done && live <= old(live)
      ensures frames == old(frames)[..ridx] && open == old(open)[..ridx]
      ensures Represents(rstack[ridx].obj, whole, done) && Placed(rstack[ridx].obj)
      ensures forall b :: Resume(old(frames), Done(value, b)) == Resume(frames, Done(whole, b))
    {
      assert Level(ridx - 1);
      ResumeLast(frames, value);
      whole := Array(frames[ridx - 1].items + [value]);
      ghost var more := done + {open[ridx - 1]};
      ArrayComplete(cur, value, more);
      DropSlot();
    }

    /** Slot `ridx` holds an element that is not the last: the slot takes the next. */
    method NextElement(ghost cur: ReplyObject, ghost value: Reply)
      requires Valid() && err == 0 && ridx > 0
      requires Represents(cur, value, done) && Placed(cur)
      requires rstack[ridx].idx != rstack[ridx - 1].elements - 1
      modifies this`frames, rstack
      ensures Valid()
      ensures rstack[ridx].kind == None
      ensures forall b :: Resume(old(frames), Done(value, b)) == Future(frames, None, b)
    {
      assert Level(ridx - 1);
      ResumeNext(frames, value);
      ghost var f := frames[ridx - 1];
      var task := rstack[ridx];
      assert task.idx < rstack[ridx - 1].elements;
      rstack[ridx] := task.(kind := None, elements := -1, idx := task.idx + 1);
      frames := frames[..ridx - 1] + [f.(items := f.items + [value])];
      forall i | 0 <= i < ridx
        ensures Level(i)
      {
        assert old(Level(i));
      }
    }

    /** One turn: out of an array that is complete, or to the next sibling. */
    method Advance(ghost cur: ReplyObject, ghost value: Reply)
      returns (up: bool, ghost outer: ReplyObject, ghost whole: Reply)
      requires Valid() && err == 0 && ridx > 0
      requires Represents(cur, value, done) && Placed(cur)
      modifies this`ridx, this`frames, this`open, this`live, this`done, rstack
      ensures Valid() && live <= old(live) && old(done) <= done
      ensures up ==>
        && ridx == old(ridx) - 1 && Represents(outer, whole, done) && Placed(outer)
        && (ridx == 0 ==> reply == outer)
        && forall b :: Resume(old(frames), Done(value, b)) == Resume(frames, Done(whole, b))
      ensures !up ==>
        && ridx == old(ridx) && rstack[ridx].kind == None
        && forall b :: Resume(old(frames), Done(value, b)) == Future(frames, None, b)
    {
      outer, whole := cur, value;
      assert Level(ridx - 1);
      assert rstack[ridx - 1].kind == Some(TArray);
      up := rstack[ridx].idx == rstack[ridx - 1].elements - 1;
      if up {
        outer := rstack[ridx - 1].obj;
        whole := LeaveArray(cur, value);
      } else {
        NextElement(cur, value);
      }
    }

    /** The item in slot `ridx` is the finished object o of value v: go to its next
        sibling, or out of every array that it completes. */
    method MoveToNextTask(ghost o: ReplyObject, ghost v: Reply)
      requires Valid() && err == 0 && ridx >= 0
      requires Represents(o, v, done)
      requires Placed(o)
      requires ridx == 0 ==> reply == o || reply == null
      modifies this`ridx, this`frames, this`open, this`live, this`done, this`finished, rstack
      ensures Valid() && live <= old(live)
      ensures ridx != 0
      ensures old(ridx) == 0 ==> ridx == -1 && finished == v && done == old(done)
      ensures old(ridx) > 0 ==> reply != null
      ensures old(done) <= done
      ensures ridx == -1 ==> forall b :: Resume(old(frames), Done(v, b)) == Done(finished, b)
      ensures ridx >= 0 ==> rstack[ridx].kind == None
      ensures ridx >= 0 ==> forall b :: Resume(old(frames), Done(v, b)) == Future(frames, None, b)
    {
      ghost var cur, value := o, v;
      if ridx > 0 {
        assert Level(0);
      }
      while ridx >= 0
        invariant 0 <= ridx <= old(ridx) && Valid() && err == 0
        invariant live <= old(live) && old(done) <= done
        invariant ridx == old(ridx) ==> cur == o && value == v && done == old(done)
        invariant Represents(cur, value, done) && Placed(cur)
        invariant old(ridx) > 0 && ridx == 0 ==> reply == cur
        invariant forall b :: Resume(old(frames), Done(v, b)) == Resume(frames, Done(value, b))
        decreases ridx
      {
        if ridx == 0 {
          ridx, finished := ridx - 1, value;
          return;
        }
        var up;
        up, cur, value := Advance(cur, value);
        if !up {
          return;
        }
      }
    }

    /** Move the cursor over n bytes. */
    method Skip(n: nat)
      requires Valid() && ridx >= 0 && n <= |Unread()|
      modifies this`pos
      ensures Valid() && pos == old(pos) + n && Unread() == old(Unread())[n..]
    {
      pos := pos + n;
    }

    /** The next line: where it starts and how long it is; the cursor moves past it. */
    method ReadLine() returns (line: Option<(nat, nat)>)
      requires Valid() && ridx >= 0 && err == 0
      modifies this`pos
      ensures Valid()
      ensures line.None? ==> NewlineAt(old(Unread())).None? && pos == old(pos)
      ensures line.Some? ==> line.value.0 == old(pos) && NewlineAt(old(Unread())) == Some(line.value.1)
      ensures line.Some? ==> Unread() == old(Unread())[line.value.1 + 2..]
    {
      var s := SeekNewline(buf[pos..]);
      if s.None? {
        return None;
      }
      line := Some((pos, s.value));
      Skip(s.value + 2);
    }

    /** The item of slot `ridx` is finished as object o. */
    method Finish(o: ReplyObject, ghost v: Reply, ghost before: bytes)
      requires Valid() && err == 0 && ridx >= 0
      requires rstack[ridx].kind.Some?
      requires Represents(o, v, done) && Placed(o)
      requires Body(|frames|, rstack[ridx].kind.value, before) == Done(v, Unread())
      modifies this`ridx, this`frames, this`open, this`live, this`done, this`finished, this`reply, rstack
      ensures Valid() && old(done) <= done
      ensures live <= old(live) && ridx != 0 && (ridx == -1 ==> reply != null)
      ensures Promises(old(frames), old(Kind()), before)
    {
      ghost var frames0, kind := frames, rstack[ridx].kind.value;
      if ridx == 0 {
        reply := o;
      }
      MoveToNextTask(o, v);
      forall m
        ensures Ahead(m) == Future(frames0, Some(kind), before + m)
      {
        BodyExtends(|frames0|, kind, before, m);
        assert Resume(frames0, Done(v, Unread() + m)) == Ahead(m);
      }
    }

    /** When the current item needs more input, so does the whole reply. */
    lemma Starved()
      requires Valid() && ridx >= 0
      requires rstack[ridx].kind.Some? && Body(|frames|, rstack[ridx].kind.value, Unread()) == Incomplete
      ensures Ahead([]) == Incomplete
    {
      assert Unread() + [] == Unread();
    }

    /** Consume the type byte of the current item. */
    method ReadType(t: ReplyType)
      requires Valid() && err == 0 && ridx >= 0 && rstack[ridx].kind.None? && Unread() != []
      requires TypeOfByte(Unread()[0]) == Some(t)
      modifies this`pos, rstack
      ensures Valid() && Kind() == Some(t) && Unread() == old(Unread())[1..]
      ensures forall m :: Future(frames, Some(t), Unread() + m) == Future(frames, None, old(Unread()) + m)
    {
      ghost var before := Unread();
      rstack[ridx] := rstack[ridx].(kind := Some(t));
      pos := pos + 1;
      forall i | 0 <= i < ridx
        ensures Level(i)
      {
        assert old(Level(i));
      }
      forall m
        ensures Future(frames, Some(t), Unread() + m) == Future(frames, None, before + m)
      {
        assert (before + m)[1..] == Unread() + m;
      }
    }

    /** The object of a line item whose text is len bytes at p. */
    method CreateLine(t: ReplyType, p: nat, len: nat, ghost before: bytes) returns (obj: ReplyObject)
      requires Valid() && ridx >= 0 && t in {TError, TStatus, TInteger}
      requires p <= |buf| && buf[p..] == before && CrlfAt(before, len)
      modifies live
      ensures Valid() && Placed(obj) && Represents(obj, LineReply(t, before, len), done)
    {
      if t == TInteger {
        var n := ScanLongLong(buf[p..]);
        obj := CreateInteger(n);
      } else {
        assert buf[p..p + len] == before[..len];
        obj := CreateString(t, buf[p..p + len]);
      }
    }

    /** The item of slot `ridx` is the line of `len` bytes at p, which has been read. */
    method FinishLine(p: nat, len: nat, ghost before: bytes)
      requires Valid() && err == 0 && ridx >= 0
      requires rstack[ridx].kind in {Some(TError), Some(TStatus), Some(TInteger)}
      requires p <= |buf| && buf[p..] == before && NewlineAt(before) == Some(len) && Unread() == before[len + 2..]
      modifies this`ridx, this`frames, this`open, this`live, this`done, this`finished, this`reply, rstack, live
      ensures Valid() && old(done) <= done
      ensures live <= old(live) && ridx != 0 && (ridx == -1 ==> reply != null)
      ensures Promises(old(frames), old(Kind()), before)
    {
      var t := rstack[ridx].kind.value;
      var obj := CreateLine(t, p, len, before);
      Finish(obj, LineReply(t, before, len), before);
    }

    /** A status, error or integer item: one line. */
    method ProcessLineItem() returns (ok: bool)
      requires Valid() && err == 0 && ridx >= 0 && (ridx == 0 ==> reply == null)
      requires rstack[ridx].kind in {Some(TError), Some(TStatus), Some(TInteger)}
      modifies this, rstack, live
      ensures Valid() && old(done) <= done && (ridx == 0 ==> reply == null)
      ensures fresh(live - old(live))
      ensures err == 0 ==> Promises(old(frames), old(Kind()), old(Unread()))
      ensures err != 0 ==> !ok && err == ERR_PROTOCOL && old(Ahead([])) == Malformed
      ensures ok ==> |Unread()| < old(|Unread()|) && (ridx == -1 ==> reply != null)
      ensures !ok && err == 0 ==> ridx >= 0 && Ahead([]) == Incomplete
    {
      ghost var before := Unread();
      var line := ReadLine();
      if line.None? {
        Starved();
        return false;
      }
      var (p, len) := line.value;
      FinishLine(p, len, before);
      return true;
    }

    /** The object of a bulk item whose length line ends at i, and the bytes the item
        takes; null while the item is not there in full. */
    method CreateBulk(i: nat) returns (obj: ReplyObject?, bytelen: nat, ghost v: Reply)
      requires Valid() && ridx >= 0 && NewlineAt(Unread()) == Some(i)
      modifies live
      ensures Valid()
      ensures obj == null ==> Body(|frames|, TString, Unread()) == Incomplete
      ensures obj != null ==> Represents(obj, v, done) && Placed(obj) && bytelen <= |Unread()|
      ensures obj != null ==> Body(|frames|, TString, Unread()) == Done(v, Unread()[bytelen..])
    {
      hide Holds, Elements;
      bytelen, v := i + 2, Nil;
      ghost var after := Unread()[bytelen..];
      var n := ScanLongLong(buf[pos..]);
      if n < 0 {
        obj := CreateNil();
        return;
      }
      bytelen := bytelen + n + 2;
      if pos + bytelen > len {
        return null, bytelen, v;
      }
      var start := pos + i + 2;
      assert buf[start..start + n] == after[..n];
      assert Unread()[bytelen..] == after[n + 2..];
      obj := CreateString(TString, buf[start..start + n]);
      v := Bulk(after[..n]);
    }

    /** The item of slot `ridx` is the finished object o and takes `bytelen` bytes. */
    method Consume(o: ReplyObject, bytelen: nat, ghost v: Reply)
      requires Valid() && err == 0 && ridx >= 0 && rstack[ridx].kind.Some? && bytelen <= |Unread()|
      requires Represents(o, v, done) && Placed(o)
      requires Body(|frames|, rstack[ridx].kind.value, Unread()) == Done(v, Unread()[bytelen..])
      modifies this`pos, this`ridx, this`frames, this`open, this`live, this`done, this`finished, this`reply, rstack
      ensures Valid() && old(done) <= done && |Unread()| == old(|Unread()|) - bytelen
      ensures live <= old(live) && ridx != 0 && (ridx == -1 ==> reply != null)
      ensures Promises(old(frames), old(Kind()), old(Unread()))
    {
      ghost var before := Unread();
      Skip(bytelen);
      Finish(o, v, before);
    }

    /** A bulk string: a length line, then that many bytes and two more. */
    method ProcessBulkItem() returns (ok: bool)
      requires Valid() && err == 0 && ridx >= 0 && (ridx == 0 ==> reply == null)
      requires rstack[ridx].kind == Some(TString)
      modifies this, rstack, live
      ensures Valid() && old(done) <= done && (ridx == 0 ==> reply == null)
      ensures fresh(live - old(live))
      ensures err == 0 ==> Promises(old(frames), old(Kind()), old(Unread()))
      ensures err != 0 ==> !ok && err == ERR_PROTOCOL && old(Ahead([])) == Malformed
      ensures ok ==> |Unread()| < old(|Unread()|) && (ridx == -1 ==> reply != null)
      ensures !ok && err == 0 ==> ridx >= 0 && Ahead([]) == Incomplete
    {
      var s := SeekNewline(buf[pos..]);
      if s.None? {
        Starved();
        return false;
      }
      var obj, bytelen, v := CreateBulk(s.value);
      if obj == null {
        Starved();
        return false;
      }
      Consume(obj, bytelen, v);
      return true;
    }

    /** Slot `ridx` is given its array. */
    method Occupy(obj: ReplyObject, n: nat)
      requires Valid() && err == 0 && ridx >= 0 && rstack[ridx].kind == Some(TArray) && Placed(obj)
      modifies this`reply, rstack
      ensures Valid() && Placed(obj) && reply == rstack[0].obj && (ridx > 0 ==> reply == old(reply))
      ensures rstack[ridx] == old(rstack[ridx]).(elements := n, obj := obj)
    {
      rstack[ridx] := rstack[ridx].(elements := n, obj := obj);
      if ridx == 0 {
        reply := obj;
      }
      forall i | 0 <= i < ridx
        ensures Level(i)
      {
        assert old(Level(i));
      }
      ghost var k := ridx - 1;
      assert k >= 0 ==> old(Level(k));
    }

    /** One more slot, for the elements of the array in slot `ridx`. */
    method PushSlot(obj: ReplyObject, n: nat)
      requires Valid() && err == 0 && 0 <= ridx < LAST_SLOT && n > 0
      requires rstack[ridx].kind == Some(TArray) && Placed(obj)
      requires rstack[ridx].obj == obj && rstack[ridx].elements == n && reply == rstack[0].obj
      requires obj.kind == TArray && obj.elements == n
      requires obj.element != null && obj.element.Length == n
      requires obj.element !in live && obj.element !in done
      modifies this`ridx, this`frames, this`open, this`live, rstack
      ensures Valid() && ridx == old(ridx) + 1 && live == old(live) + {obj.element}
      ensures frames == old(frames) + [Frame(n, [])] && Kind() == None
    {
      hide Represents;
      forall i | 0 <= i < ridx
        ensures open[i] in live
      {
        assert Level(i);
      }
      ridx := ridx + 1;
      rstack[ridx] := Task(None, -1, 0, null, ridx - 1);
      frames, open, live := frames + [Frame(n, [])], open + [obj.element], live + {obj.element};
      forall i | 0 <= i < ridx - 1
        ensures Level(i)
      {
        assert old(Level(i));
      }
      assert Level(ridx - 1);
    }

    /** Slot `ridx` is an array of n > 0 elements, made as obj: its elements come next. */
    method OpenArray(obj: ReplyObject, n: nat)
      requires Valid() && err == 0 && 0 <= ridx < LAST_SLOT && n > 0
      requires rstack[ridx].kind == Some(TArray) && Placed(obj)
      requires obj.kind == TArray && obj.elements == n
      requires obj.element != null && obj.element.Length == n
      requires obj.element !in live && obj.element !in done
      modifies this`ridx, this`frames, this`open, this`live, this`reply, rstack
      ensures Valid() && ridx == old(ridx) + 1 && live == old(live) + {obj.element}
      ensures frames == old(frames) + [Frame(n, [])] && Kind() == None
    {
      Occupy(obj, n);
      PushSlot(obj, n);
    }

    /** The same, after the head of the array was read from `before`. */
    method StartElements(obj: ReplyObject, n: nat, ghost before: bytes, ghost i: nat)
      requires Valid() && err == 0 && 0 <= ridx < LAST_SLOT && n > 0 && (ridx == 0 ==> reply == null)
      requires rstack[ridx].kind == Some(TArray) && Placed(obj)
      requires obj.kind == TArray && obj.elements == n
      requires obj.element != null && obj.element.Length == n
      requires obj.element !in live && obj.element !in done
      requires NewlineAt(before) == Some(i) && Unread() == before[i + 2..] && n == ReadLongLong(before)
      modifies this`ridx, this`frames, this`open, this`live, this`reply, rstack
      ensures Valid() && ridx == old(ridx) + 1 && live == old(live) + {obj.element}
      ensures Promises(old(frames), Some(TArray), before)
    {
      OpenArray(obj, n);
      forall m
        ensures Ahead(m) == Future(old(frames), Some(TArray), before + m)
      {
        HeadExtends(before, m, i);
        ResumeOpen(old(frames), n, Unread() + m);
      }
    }

    /** The item of slot `ridx` is an array of n elements, one without elements, or none. */
    method StartArray(n: int, ghost before: bytes, ghost i: nat)
      requires Valid() && err == 0 && 0 <= ridx < LAST_SLOT && (ridx == 0 ==> reply == null)
      requires Kind() == Some(TArray)
      requires NewlineAt(before) == Some(i) && Unread() == before[i + 2..]
      requires n == ReadLongLong(before)
      modifies this, rstack, live
      ensures Valid() && err == 0 && Unread() == old(Unread()) && old(done) <= done
      ensures ridx != 0 && (ridx == -1 ==> reply != null)
      ensures fresh(live - old(live))
      ensures Promises(old(frames), Some(TArray), before)
    {
      hide Shape, Holds, Level, Promises;
      if n == -1 {
        var none := CreateNil();
        Finish(none, Nil, before);
        return;
      }
      var obj := CreateArray(n);
      if n > 0 {
        StartElements(obj, n, before, i);
      } else {
        Finish(obj, if n == 0 then Array([]) else Hollow(n), before);
      }
    }

    /** An array: a count line; the elements are items of their own. */
    method ProcessMultiBulkItem() returns (ok: bool)
      requires Valid() && err == 0 && ridx >= 0 && (ridx == 0 ==> reply == null)
      requires rstack[ridx].kind == Some(TArray)
      modifies this, rstack, live
      ensures Valid() && old(done) <= done && (ridx == 0 ==> reply == null)
      ensures fresh(live - old(live))
      ensures err == 0 ==> Promises(old(frames), old(Kind()), old(Unread()))
      ensures err != 0 ==> !ok && err == ERR_PROTOCOL && old(Ahead([])) == Malformed
      ensures ok ==> |Unread()| < old(|Unread()|) && (ridx == -1 ==> reply != null)
      ensures !ok && err == 0 ==> ridx >= 0 && Ahead([]) == Incomplete
    {
      if ridx == LAST_SLOT {
        SetError(ERR_PROTOCOL);
        return false;
      }
      ghost var before := Unread();
      var line := ReadLine();
      if line.None? {
        Starved();
        return false;
      }
      assert buf[line.value.0..] == before;
      var n := ScanLongLong(buf[line.value.0..]);
      StartArray(n, before, line.value.1);
      return true;
    }

    /** Process the current item, whose type is known, according to its type. */
    method ProcessTyped() returns (ok: bool)
      requires Valid() && err == 0 && ridx >= 0 && (ridx == 0 ==> reply == null)
      requires rstack[ridx].kind.Some?
      modifies this, rstack, live
      ensures Valid() && old(done) <= done && (ridx == 0 ==> reply == null)
      ensures fresh(live - old(live))
      ensures err == 0 ==> Promises(old(frames), old(Kind()), old(Unread()))
      ensures err != 0 ==> !ok && err == ERR_PROTOCOL && old(Ahead([])) == Malformed
      ensures ok ==> |Unread()| < old(|Unread()|) && (ridx == -1 ==> reply != null)
      ensures !ok && err == 0 ==> ridx >= 0 && Ahead([]) == Incomplete
    {
      match rstack[ridx].kind.value
      case TError | TStatus | TInteger =>
        ok := ProcessLineItem();
      case TString =>
        ok := ProcessBulkItem();
      case TArray =>
        ok := ProcessMultiBulkItem();
    }

    /** One step of the parser: read the type byte if that is still to be done, then
        the item as far as it goes. */
    method ProcessItem() returns (ok: bool)
      requires Valid() && err == 0 && ridx >= 0 && (ridx == 0 ==> reply == null)
      modifies this, rstack, live
      ensures Valid() && old(done) <= done && (ridx == 0 ==> reply == null)
      ensures fresh(live - old(live))
      ensures err == 0 ==> Promises(old(frames), old(Kind()), old(Unread()))
      ensures err != 0 ==> !ok && err == ERR_PROTOCOL && old(Ahead([])) == Malformed
      ensures ok ==> |Unread()| < old(|Unread()|) && (ridx == -1 ==> reply != null)
      ensures !ok && err == 0 ==> ridx >= 0 && Ahead([]) == Incomplete
    {
      if rstack[ridx].kind.None? {
        if pos == len {
          assert Unread() + [] == Unread();
          return false;
        }
        var t := TypeOfByte(buf[pos]);
        if t.None? {
          SetError(ERR_PROTOCOL);
          return false;
        }
        ReadType(t.value);
      }
      ok := ProcessTyped();
    }

    /** Drop consumed bytes once there are many of them. */
    method Compact()
      requires Valid()
      modifies this`buf, this`pos, this`len
      ensures Valid() && Unread() == old(Unread())
    {
      if pos >= COMPACT_AT {
        Sds.SliceTail(buf, pos);
        buf := Sds.Slice(buf, pos, -1);
        pos := 0;
        len := |buf|;
      }
    }

    /** Hand the reader more bytes. */
    method Feed(data: bytes) returns (ok: bool)
      requires Ready()
      modifies this`buf, this`len
      ensures Ready() && ok == (err == 0) && Kind() == old(Kind())
      ensures Unread() == if ok then old(Unread()) + data else old(Unread())
    {
      if err != 0 {
        return false;
      }
      DropAppend(buf, pos, data);
      buf := buf + data;
      len := |buf|;
      return true;
    }

    /** The next reply, if the bytes fed so far contain all of it. */
    method GetReply() returns (ok: bool, r: ReplyObject?, ghost v: Reply)
      requires Ready()
      modifies this, rstack, live
      ensures Ready() && old(done) <= done && fresh(live - old(live))
      ensures old(err) != 0 ==> !ok && r == null && err == old(err)
      ensures old(err) == 0 ==>
        match Future(old(frames), old(Kind()), old(Unread()))
        case Done(w, rest) =>
          && ok && err == 0 && v == w && Represents(r, w, done)
          && Unread() == rest && frames == [] && Kind() == None
        case Incomplete =>
          && ok && err == 0 && r == null && Promises(old(frames), old(Kind()), old(Unread()))
        case Malformed =>
          && !ok && err == ERR_PROTOCOL && r == null
    {
      hide Shape, Represents;
      r, v := null, Nil;
      ghost var fs, t, b := frames, Kind(), Unread();
      assert b + [] == b;
      if err != 0 {
        return false, r, v;
      }
      if len == 0 {
        assert Future(fs, t, b) == Incomplete;
        return true, r, v;
      }
      if ridx == -1 {
        rstack[0] := Task(None, -1, -1, null, -1);
        ridx := 0;
      }
      while ridx >= 0
        invariant Valid() && err == 0 && old(done) <= done && fresh(live - old(live))
        invariant ridx == 0 ==> reply == null
        invariant ridx == -1 ==> reply != null
        invariant Promises(fs, t, b)
        decreases |Unread()|
      {
        var more := ProcessItem();
        if !more {
          break;
        }
      }
      assert err == 0 ==> Ahead([]) == Future(fs, t, b);
      if err != 0 {
        return false, r, v;
      }
      Compact();
      if ridx == -1 {
        r, v := reply, finished;
        reply := null;
      }
      return true, r, v;
    }
  }
}
