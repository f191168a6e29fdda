/** Whole runs of the reader: a byte stream, cut anyhow into pieces, gives the replies
    that the stream as a whole spells. */
module Session {
  import opened Bytes
  import opened Resp
  import opened Reader

  /** The replies of a stream in order, and whether it ends in a protocol error. */
  datatype Log = Log(replies: seq<Reply>, malformed: bool)

  function Prepend(vs: seq<Reply>, log: Log): Log {
    log.(replies := vs + log.replies)
  }

  /** The log of a stream, read one reply after the other by the plain parser. */
  function Transcript(b: bytes): Log
    decreases |b|
  {
    match Parse(0, b)
    case Done(v, rest) => Prepend([v], Transcript(rest))
    case Incomplete => Log([], false)
    case Malformed => Log([], true)
  }

  /** The log of a stream whose first reply has outcome o. */
  function LogFrom(o: Outcome): Log {
    match o
    case Done(v, rest) => Prepend([v], Transcript(rest))
    case Incomplete => Log([], false)
    case Malformed => Log([], true)
  }

  function Concat(chunks: seq<bytes>): bytes {
    if chunks == [] then [] else Concat(chunks[..|chunks| - 1]) + chunks[|chunks| - 1]
  }

  /** Feeding more never takes replies back, and an error is final. */
  lemma {:induction false} TranscriptExtends(b: bytes, m: bytes)
    ensures Transcript(b).replies <= Transcript(b + m).replies
    ensures Transcript(b).malformed ==> Transcript(b + m) == Transcript(b)
    decreases |b|
  {
    ParseExtends(0, b, m);
    if Parse(0, b).Done? {
      TranscriptExtends(Parse(0, b).rest, m);
    }
  }

  /** vs are the replies so far of a stream that began with `fed`; if m comes next,
      the rest of the log is the log of the suspended parse. */
  predicate OnTrackWith(fed: bytes, vs: seq<Reply>, frames: seq<Frame>, t: Option<ReplyType>, b: bytes, m: bytes) {
    Transcript(fed + m) == Prepend(vs, LogFrom(Future(frames, t, b + m)))
  }

  ghost predicate OnTrack(fed: bytes, vs: seq<Reply>, frames: seq<Frame>, t: Option<ReplyType>, b: bytes) {
    forall m :: OnTrackWith(fed, vs, frames, t, b, m)
  }

  /** The stream is in error after vs, whatever comes next. */
  predicate FailedWith(fed: bytes, vs: seq<Reply>, m: bytes) {
    Transcript(fed + m) == Log(vs, true)
  }

  ghost predicate Failed(fed: bytes, vs: seq<Reply>) {
    forall m :: FailedWith(fed, vs, m)
  }

  lemma OnTrackLater(fed: bytes, vs: seq<Reply>, frames: seq<Frame>, t: Option<ReplyType>, b: bytes,
                     data: bytes, m: bytes)
    requires OnTrackWith(fed, vs, frames, t, b, data + m)
    ensures OnTrackWith(fed + data, vs, frames, t, b + data, m)
  {
    Assoc(fed, data, m);
    Assoc(b, data, m);
  }

  lemma OnTrackFeed(fed: bytes, vs: seq<Reply>, frames: seq<Frame>, t: Option<ReplyType>, b: bytes, data: bytes)
    requires OnTrack(fed, vs, frames, t, b)
    ensures OnTrack(fed + data, vs, frames, t, b + data)
  {
    forall m
      ensures OnTrackWith(fed + data, vs, frames, t, b + data, m)
    {
      assert OnTrackWith(fed, vs, frames, t, b, data + m);
      OnTrackLater(fed, vs, frames, t, b, data, m);
    }
  }

  /** After a reply, the log goes on with the next parse of the rest. */
  lemma NextReply(vs: seq<Reply>, v: Reply, rest: bytes)
    ensures Prepend(vs, LogFrom(Done(v, rest))) == Prepend(vs + [v], LogFrom(Parse(0, rest)))
  {
    var log := Transcript(rest);
    assert vs + ([v] + log.replies) == vs + [v] + log.replies;
  }

  lemma OnTrackReplyWith(fed: bytes, vs: seq<Reply>, frames: seq<Frame>, t: Option<ReplyType>, b: bytes, m: bytes)
    requires OnTrackWith(fed, vs, frames, t, b, m) && Future(frames, t, b).Done?
    ensures var o := Future(frames, t, b); OnTrackWith(fed, vs + [o.reply], [], None, o.rest, m)
  {
    var Done(v, rest) := Future(frames, t, b);
    FutureExtends(frames, t, b, m);
    NextReply(vs, v, rest + m);
    FutureFresh(rest + m);
  }

  lemma OnTrackReply(fed: bytes, vs: seq<Reply>, frames: seq<Frame>, t: Option<ReplyType>, b: bytes)
    requires OnTrack(fed, vs, frames, t, b) && Future(frames, t, b).Done?
    ensures var o := Future(frames, t, b); OnTrack(fed, vs + [o.reply], [], None, o.rest)
  {
    var o := Future(frames, t, b);
    forall m
      ensures OnTrackWith(fed, vs + [o.reply], [], None, o.rest, m)
    {
      assert OnTrackWith(fed, vs, frames, t, b, m);
      OnTrackReplyWith(fed, vs, frames, t, b, m);
    }
  }

  lemma OnTrackError(fed: bytes, vs: seq<Reply>, frames: seq<Frame>, t: Option<ReplyType>, b: bytes)
    requires OnTrack(fed, vs, frames, t, b) && Future(frames, t, b).Malformed?
    ensures Failed(fed, vs)
  {
    forall m
      ensures FailedWith(fed, vs, m)
    {
      assert OnTrackWith(fed, vs, frames, t, b, m);
      FutureExtends(frames, t, b, m);
    }
  }

  lemma FailedFeed(fed: bytes, vs: seq<Reply>, data: bytes)
    requires Failed(fed, vs)
    ensures Failed(fed + data, vs)
  {
    forall m
      ensures FailedWith(fed + data, vs, m)
    {
      assert FailedWith(fed, vs, data + m);
      Assoc(fed, data, m);
    }
  }

  /** No reply is complete, and the reader is on the way to the next one. */
  ghost predicate Pending(reader: Reader, fed: bytes, values: seq<Reply>)
    requires reader.Ready()
    reads reader, reader.rstack, reader.done, reader.live
  {
    && OnTrack(fed, values, reader.frames, reader.Kind(), reader.Unread())
    && Future(reader.frames, reader.Kind(), reader.Unread()) == Incomplete
  }

  lemma OnTrackAgain(fed: bytes, vs: seq<Reply>, frames: seq<Frame>, t: Option<ReplyType>, b: bytes, r: Reader)
    requires OnTrack(fed, vs, frames, t, b)
    requires r.Ready() && r.Promises(frames, t, b) && Future(frames, t, b) == Incomplete
    ensures Pending(r, fed, vs)
  {
    assert r.Ahead([]) == Future(frames, t, b + []) && b + [] == b && r.Unread() + [] == r.Unread();
    forall m
      ensures OnTrackWith(fed, vs, r.frames, r.Kind(), r.Unread(), m)
    {
      assert OnTrackWith(fed, vs, frames, t, b, m);
      assert r.Ahead(m) == Future(frames, t, b + m);
    }
  }

  /** The reply objects handed out spell the values, in order. */
  ghost predicate Spell(objects: seq<ReplyObject>, values: seq<Reply>, done: set<Slots>)
    reads done
  {
    && |objects| == |values|
    && forall i :: 0 <= i < |objects| ==> Represents(objects[i], values[i], done)
  }

  lemma SpellAppend(objects: seq<ReplyObject>, values: seq<Reply>, small: set<Slots>,
                    objects': seq<ReplyObject>, values': seq<Reply>, large: set<Slots>)
    requires Spell(objects, values, small) && small <= large
    requires Spell(objects', values', large)
    ensures Spell(objects + objects', values + values', large)
  {
    forall i | 0 <= i < |objects|
      ensures Represents(objects[i], values[i], large)
    {
      RepresentsMonotone(objects[i], values[i], small, large);
    }
  }

  /** Ask for one reply: there is one, none yet, or the stream is in error. */
  method Take(reader: Reader, ghost fed: bytes, ghost before: seq<Reply>)
    returns (obj: ReplyObject?, failed: bool, ghost v: Reply)
    requires reader.Ready() && reader.err == 0
    requires OnTrack(fed, before, reader.frames, reader.Kind(), reader.Unread())
    modifies reader, reader.rstack, reader.live
    ensures reader.Ready() && old(reader.done) <= reader.done && fresh(reader.live - old(reader.live))
    ensures reader.err == (if failed then ERR_PROTOCOL else 0) && (failed ==> obj == null && Failed(fed, before))
    ensures obj == null && !failed ==> Pending(reader, fed, before)
    ensures obj != null ==> Represents(obj, v, reader.done) && |reader.Unread()| < old(|reader.Unread()|)
    ensures obj != null ==> OnTrack(fed, before + [v], reader.frames, reader.Kind(), reader.Unread())
  {
    ghost var frames, t, b := reader.frames, reader.Kind(), reader.Unread();
    var ok;
    ok, obj, v := reader.GetReply();
    failed := !ok;
    if failed {
      OnTrackError(fed, before, frames, t, b);
    } else if obj == null {
      OnTrackAgain(fed, before, frames, t, b, reader);
    } else {
      FutureShrinks(frames, t, b);
      OnTrackReply(fed, before, frames, t, b);
    }
  }

  lemma SpellNext(objects: seq<ReplyObject>, values: seq<Reply>, small: set<Slots>, obj: ReplyObject, v: Reply,
                  large: set<Slots>)
    requires Spell(objects, values, small) && small <= large && Represents(obj, v, large)
    ensures Spell(objects + [obj], values + [v], large)
  {
    SpellAppend(objects, values, small, [obj], [v], large);
  }

  lemma SpellGrow(objects: seq<ReplyObject>, values: seq<Reply>, small: set<Slots>, large: set<Slots>)
    requires Spell(objects, values, small) && small <= large
    ensures Spell(objects, values, large)
  {
    SpellAppend(objects, values, small, [], [], large);
    assert objects + [] == objects && values + [] == values;
  }

  lemma Behind(before: seq<Reply>, values: seq<Reply>, v: Reply)
    ensures before + values + [v] == before + (values + [v])
  {
  }

  /** Ask for replies until there are none left. */
  method Drain(reader: Reader, ghost fed: bytes, ghost before: seq<Reply>)
    returns (objects: seq<ReplyObject>, failed: bool, ghost values: seq<Reply>)
    requires reader.Ready() && reader.err == 0
    requires OnTrack(fed, before, reader.frames, reader.Kind(), reader.Unread())
    modifies reader, reader.rstack, reader.live
    ensures reader.Ready() && old(reader.done) <= reader.done && fresh(reader.live - old(reader.live))
    ensures reader.err == (if failed then ERR_PROTOCOL else 0)
    ensures Spell(objects, values, reader.done)
    ensures if failed then Failed(fed, before + values) else Pending(reader, fed, before + values)
  {
    objects, values, failed := [], [], false;
    assert before + values == before;
    while true
      invariant reader.Ready() && old(reader.done) <= reader.done && fresh(reader.live - old(reader.live))
      invariant reader.err == 0
      invariant Spell(objects, values, reader.done)
      invariant OnTrack(fed, before + values, reader.frames, reader.Kind(), reader.Unread())
      decreases |reader.Unread()|
    {
      ghost var done, v := reader.done, Nil;
      var obj;
      obj, failed, v := Take(reader, fed, before + values);
      if obj == null {
        SpellGrow(objects, values, done, reader.done);
        return;
      }
      SpellNext(objects, values, done, obj, v, reader.done);
      Behind(before, values, v);
      objects, values := objects + [obj], values + [v];
    }
  }

  /** A reader that has been fed a stream and drained: what it has handed out, and
      that it is on the way to hand out the rest. */
  ghost predicate Drained(reader: Reader, fed: bytes, objects: seq<ReplyObject>, values: seq<Reply>, failed: bool)
    reads reader, reader.rstack, reader.done, reader.live
  {
    && reader.Ready() && reader.err == (if failed then ERR_PROTOCOL else 0)
    && Spell(objects, values, reader.done)
    && if failed then Failed(fed, values) else Pending(reader, fed, values)
  }

  lemma DrainedLog(reader: Reader, fed: bytes, objects: seq<ReplyObject>, values: seq<Reply>, failed: bool)
    requires Drained(reader, fed, objects, values, failed)
    ensures Log(values, failed) == Transcript(fed)
  {
    assert fed + [] == fed;
    assert reader.Unread() + [] == reader.Unread();
    if failed {
      assert FailedWith(fed, values, []);
    } else {
      assert OnTrackWith(fed, values, reader.frames, reader.Kind(), reader.Unread(), []);
    }
  }

  /** Feed a piece of the stream. */
  method FeedOn(reader: Reader, data: bytes, ghost fed: bytes, ghost values: seq<Reply>)
    requires reader.Ready()
    requires if reader.err != 0 then Failed(fed, values) else Pending(reader, fed, values)
    modifies reader`buf, reader`len
    ensures reader.Ready()
    ensures reader.err == old(reader.err)
    ensures if reader.err != 0 then Failed(fed + data, values)
      else OnTrack(fed + data, values, reader.frames, reader.Kind(), reader.Unread())
  {
    ghost var t, b := reader.Kind(), reader.Unread();
    var ok := reader.Feed(data);
    if ok {
      OnTrackFeed(fed, values, reader.frames, t, b, data);
    } else {
      FailedFeed(fed, values, data);
    }
  }

  /** One read event: feed a piece of the stream, then drain. */
  method FeedAndDrain(reader: Reader, data: bytes, ghost fed: bytes,
                      objects: seq<ReplyObject>, failed: bool, ghost values: seq<Reply>)
    returns (objects': seq<ReplyObject>, failed': bool, ghost values': seq<Reply>)
    requires Drained(reader, fed, objects, values, failed)
    modifies reader, reader.rstack, reader.live
    ensures Drained(reader, fed + data, objects', values', failed')
    ensures fresh(reader.live - old(reader.live))
  {
    ghost var done := reader.done;
    FeedOn(reader, data, fed, values);
    if failed {
      return objects, failed, values;
    }
    var more, ended, vs := Drain(reader, fed + data, values);
    SpellAppend(objects, values, done, more, vs, reader.done);
    return objects + more, ended, values + vs;
  }

  /** Feed the pieces of a stream one by one, draining the reader after each. The
      outcome is that of the whole stream: how it was cut does not matter. */
  method Replay(chunks: seq<bytes>)
    returns (reader: Reader, objects: seq<ReplyObject>, failed: bool, ghost values: seq<Reply>)
    ensures fresh(reader) && reader.Ready() && reader.err == (if failed then ERR_PROTOCOL else 0)
    ensures Drained(reader, Concat(chunks), objects, values, failed)
    ensures Log(values, failed) == Transcript(Concat(chunks))
  {
    reader := new Reader();
    objects, values, failed := [], [], false;
    assert OnTrack([], [], [], None, []);
    for i := 0 to |chunks|
      invariant fresh(reader) && fresh(reader.rstack) && fresh(reader.live)
      invariant Drained(reader, Concat(chunks[..i]), objects, values, failed)
    {
      assert chunks[..i + 1][..i] == chunks[..i];
      objects, failed, values := FeedAndDrain(reader, chunks[i], Concat(chunks[..i]), objects, failed, values);
    }
    assert chunks[..|chunks|] == chunks;
    DrainedLog(reader, Concat(chunks), objects, values, failed);
  }
}
