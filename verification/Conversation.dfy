/** From the bytes of the connection to the callbacks: the reader cuts what comes into replies,
    and the asynchronous context hands these to the callbacks. */
module Conversation {
  import opened Bytes
  import opened Resp
  import opened Dict
  import opened Session
  import opened History
  import opened Ledger
  import opened Machine
  import opened Events
  import opened Subscriptions
  import opened Async

  /** Bytes come in, or the user asks for something. */
  datatype Happening = Comes(chunk: bytes) | Does(action: Action)

  /** The bytes that have come in, whatever was asked for in between. */
  function Stream(hs: seq<Happening>): bytes {
    if hs == [] then []
    else
      var last := hs[|hs| - 1];
      Stream(hs[..|hs| - 1]) + (if last.Comes? then last.chunk else [])
  }

  /** What one more piece of a stream completes: the replies that it adds, and whether the
      reader fails then. */
  function Completed(before: bytes, chunk: bytes): ReadResult {
    TranscriptExtends(before, chunk);
    var was, now := Transcript(before), Transcript(before + chunk);
    Data(now.replies[|was.replies|..], now.malformed)
  }

  /** The events that the context sees. */
  function Inputs(hs: seq<Happening>): (inputs: seq<Input>)
    ensures |inputs| == |hs|
  {
    if hs == [] then []
    else
      var front, last := hs[..|hs| - 1], hs[|hs| - 1];
      Inputs(front)
      + [match last
         case Comes(chunk) => Readable(Established, Completed(Stream(front), chunk))
         case Does(action) => Asks(action)]
  }

  /** However the bytes are cut, the replies that the events bring are those of the whole
      stream. */
  lemma {:induction false} WholeStream(hs: seq<Happening>, connected: bool)
    ensures ReadOf(Inputs(hs), connected) == Transcript(Stream(hs)).replies
  {
    if hs != [] {
      var front, last := hs[..|hs| - 1], hs[|hs| - 1];
      WholeStream(front, connected);
      assert Inputs(hs)[..|hs| - 1] == Inputs(front);
      if last.Comes? {
        TranscriptExtends(Stream(front), last.chunk);
      } else {
        assert Stream(hs) == Stream(front);
      }
    }
  }

  /** The user only sends commands. */
  predicate OnlyCommands(hs: seq<Happening>) {
    forall i :: 0 <= i < |hs| && hs[i].Does? ==> hs[i].action.Issue?
  }

  /** A stream without an error, and a user who only sends commands, make events without an
      error. */
  lemma {:induction false} CleanStream(hs: seq<Happening>, connected: bool)
    requires OnlyCommands(hs) && !Transcript(Stream(hs)).malformed
    ensures AllQuiet(Inputs(hs), connected)
  {
    if hs != [] {
      var front, last := hs[..|hs| - 1], hs[|hs| - 1];
      var inputs := Inputs(hs);
      TranscriptExtends(Stream(front), if last.Comes? then last.chunk else []);
      CleanStream(front, connected);
      assert inputs[..|front|] == Inputs(front);
      forall i | 0 <= i < |inputs|
        ensures Quiet(inputs[i], ConnectedAfter(inputs[..i], connected))
      {
        if i < |front| {
          assert inputs[i] == Inputs(front)[i] && inputs[..i] == Inputs(front)[..i];
        }
      }
    }
  }

  /** A stream that is in error has a piece with which the reader fails. */
  lemma {:induction false} BrokenAt(hs: seq<Happening>) returns (k: nat)
    requires Transcript(Stream(hs)).malformed
    ensures k < |hs| && Inputs(hs)[k].Readable? && Inputs(hs)[k].conn == Established
    ensures Inputs(hs)[k].read.Data? && Inputs(hs)[k].read.broken
    decreases |hs|
  {
    var front, last := hs[..|hs| - 1], hs[|hs| - 1];
    k := |hs| - 1;
    if last.Does? {
      assert Stream(hs) == Stream(front);
      k := BrokenAt(front);
    }
  }

  /** The run ends there, if it has not ended before. */
  lemma BrokenEnds(u: User, states: seq<Snapshot>, inputs: seq<Input>, k: nat)
    requires Path(u, states, inputs) && k < |inputs| && inputs[k].Readable? && inputs[k].conn == Established
    requires inputs[k].read.Data? && inputs[k].read.broken
    ensures Over(states[|states| - 1])
  {
    if k + 1 < |states| && states[k].cerr == 0 {
      SocketErrors(u, states[k], inputs[k], states[k + 1]);
    } else if k + 1 < |states| {
      LeftBehind(u, states[k], inputs[k], states[k + 1]);
    }
  }

  /** The context while a stream comes in, cut in any way and with any requests in between.
      The replies taken are those that the stream as a whole spells, in order, and all of them
      while the context lives; the callbacks of ordinary commands have run once each, in order,
      with these replies as long as none is a stray. If the stream is well-formed, the user
      only sends commands, no callback asks to end the context and no reply comes before its
      command, then the context lives and every reply of the stream has been taken. */
  method Listen(ctx: AsyncContext, hs: seq<Happening>) returns (ghost states: seq<Snapshot>)
    requires ctx.Settled() && !ctx.freed && !ctx.aborted && ctx.hist == NEW
    modifies ctx, ctx.pending, ctx.pending.repr
    ensures ctx.Settled() && Path(ctx.user, states, Inputs(hs)) && states[|states| - 1] == ctx.Now()
    ensures ctx.hist.received <= Transcript(Stream(hs)).replies && InOrder(ctx.hist)
    ensures ctx.freed || ctx.aborted || ctx.hist.received == Transcript(Stream(hs)).replies
    ensures Transcript(Stream(hs)).malformed ==> ctx.freed || ctx.aborted
    ensures Orderly(ctx.hist) ==>
      !ctx.aborted && Given(ctx.hist.served) == ctx.hist.received
    ensures Orderly(ctx.hist) && Calm(old(ctx.Now())) && Wishes(ctx.user, old(ctx.calls), ctx.calls) == {} ==>
      OnlyCommands(hs) && !Transcript(Stream(hs)).malformed ==>
      !ctx.freed && Given(ctx.hist.served) == Transcript(Stream(hs)).replies
  {
    WholeStream(hs, Connected in ctx.flags);
    if OnlyCommands(hs) && !Transcript(Stream(hs)).malformed {
      CleanStream(hs, Connected in ctx.flags);
    }
    states := ctx.Run(Inputs(hs));
    if Transcript(Stream(hs)).malformed {
      var k := BrokenAt(hs);
      BrokenEnds(ctx.user, states, Inputs(hs), k);
    }
    assert [] + Transcript(Stream(hs)).replies == Transcript(Stream(hs)).replies;
  }

  // ------------------------------------------------------------------------
  // Commands and their answers

  /** A command with its callback. */
  datatype Request = Request(fn: Option<nat>, privdata: nat, argv: CommandLine)

  function Callbacks(requests: seq<Request>): (cbs: seq<Callback>)
    ensures |cbs| == |requests|
    ensures forall i :: 0 <= i < |cbs| ==> cbs[i] == Callback(requests[i].fn, requests[i].privdata)
  {
    seq(|requests|, i requires 0 <= i < |requests| => Callback(requests[i].fn, requests[i].privdata))
  }

  /** The state after ordinary commands: their callbacks wait, and that is all but for the log
      and the output. */
  predicate Waits(a: Snapshot, cbs: seq<Callback>, b: Snapshot) {
    b == a.(queue := a.queue + cbs, obuf := b.obuf, hist := a.hist.(accepted := b.hist.accepted, deeds := b.hist.deeds))
  }

  lemma WaitsNext(a: Snapshot, cbs: seq<Callback>, b: Snapshot, r: Request, c: Snapshot, u: User)
    requires Waits(a, cbs, b) && Ordinary(r.argv)
    requires Disconnecting !in a.flags && Freeing !in a.flags && Subscribed !in a.flags
    requires Stepped(u, b, Asks(Issue(r.fn, r.privdata, r.argv)), c)
    ensures Waits(a, cbs + [Callback(r.fn, r.privdata)], c)
  {
    OrdinaryCommand(b, r.fn, r.privdata, r.argv);
    assert a.queue + (cbs + [Callback(r.fn, r.privdata)]) == a.queue + cbs + [Callback(r.fn, r.privdata)];
  }

  lemma QuietRead(u: User, a: Snapshot, replies: seq<Reply>)
    requires Connected in a.flags && a.cerr == 0
    ensures After(u, a, Readable(Established, Data(replies, false)))
         == Finished(TakenAll(u, Arrived(a, |replies|), replies).after, false)
  {
    hide TakenAll, Finished, Arrived;
  }

  /** What a read of answers comes to. */
  lemma AnswersRead(u: User, a: Snapshot, replies: seq<Reply>, b: Snapshot)
    requires Good(a) && !Over(a) && Connected in a.flags && a.cerr == 0
    requires Disconnecting !in a.flags && Freeing !in a.flags && |replies| <= |a.queue|
    requires NobodyEnds(u, a.calls, a.calls + |replies|)
    requires Stepped(u, a, Readable(Established, Data(replies, false)), b)
    ensures !Over(b) && b.hist.trace == a.hist.trace + Answers(a.queue[..|replies|], replies)
    ensures b.hist.strays == a.hist.strays && a.queue[|replies|..] <= b.queue
  {
    hide TakenAll, Good, Torn, Answers, NobodyEnds, After;
    QuietRead(u, a, replies);
    AnswerAll(u, Arrived(a, |replies|), replies);
  }

  lemma WaitsNone(a: Snapshot)
    ensures Waits(a, [], a) && Callbacks([]) == []
  {
    assert a.queue + [] == a.queue;
  }

  lemma StillCalm(a: Snapshot, cbs: seq<Callback>, b: Snapshot)
    requires Waits(a, cbs, b)
    ensures b.freed == a.freed && b.aborted == a.aborted
  {
  }

  lemma CallbacksSnoc(requests: seq<Request>, n: nat)
    requires n < |requests|
    ensures Callbacks(requests[..n + 1])
         == Callbacks(requests[..n]) + [Callback(requests[n].fn, requests[n].privdata)]
  {
  }

  method SendOne(ctx: AsyncContext, r: Request, ghost a: Snapshot, ghost cbs: seq<Callback>)
    requires ctx.Settled() && Waits(a, cbs, ctx.Now()) && !Over(a) && Ordinary(r.argv)
    requires Disconnecting !in a.flags && Freeing !in a.flags && Subscribed !in a.flags
    modifies ctx, ctx.pending, ctx.pending.repr
    ensures ctx.Settled() && fresh(ctx.pending.repr - old(ctx.pending.repr))
    ensures Waits(a, cbs + [Callback(r.fn, r.privdata)], ctx.Now())
  {
    hide Stepped, Proper, Ordinary, Waits;
    ghost var b := ctx.Now();
    StillCalm(a, cbs, b);
    ctx.Step(Asks(Issue(r.fn, r.privdata, r.argv)));
    WaitsNext(a, cbs, b, r, ctx.Now(), ctx.user);
  }

  /** Send the commands one after the other. */
  method SendAll(ctx: AsyncContext, requests: seq<Request>)
    requires ctx.Settled() && !ctx.freed && !ctx.aborted
    requires Disconnecting !in ctx.flags && Freeing !in ctx.flags && Subscribed !in ctx.flags
    requires forall i :: 0 <= i < |requests| ==> Ordinary(requests[i].argv)
    modifies ctx, ctx.pending, ctx.pending.repr
    ensures ctx.Settled() && fresh(ctx.pending.repr - old(ctx.pending.repr))
    ensures Waits(old(ctx.Now()), Callbacks(requests), ctx.Now())
  {
    hide Proper, Ordinary, Waits;
    ghost var a := ctx.Now();
    WaitsNone(a);
    for i := 0 to |requests|
      invariant ctx.Settled() && fresh(ctx.pending.repr - old(ctx.pending.repr))
      invariant Waits(a, Callbacks(requests[..i]), ctx.Now())
    {
      CallbacksSnoc(requests, i);
      SendOne(ctx, requests[i], a, Callbacks(requests[..i]));
    }
    assert requests[..|requests|] == requests;
  }

  lemma ExchangeMeans(u: User, a: Snapshot, cbs: seq<Callback>, b: Snapshot, replies: seq<Reply>, c: Snapshot)
    requires Waits(a, cbs, b) && Proper(b) && !Over(a) && Connected in a.flags && a.cerr == 0
    requires Disconnecting !in a.flags && Freeing !in a.flags && |replies| <= |a.queue + cbs|
    requires NobodyEnds(u, a.calls, a.calls + |replies|)
    requires Stepped(u, b, Readable(Established, Data(replies, false)), c)
    ensures !Over(c) && c.hist.trace == a.hist.trace + Answers((a.queue + cbs)[..|replies|], replies)
    ensures c.hist.strays == a.hist.strays && (a.queue + cbs)[|replies|..] <= c.queue
  {
    hide Stepped, Good, Tidy, Booked, Answers, NobodyEnds;
    AnswersRead(u, b, replies, c);
  }

  /** So many commands are sent on a connected context, and then at most so many replies come
      in: every callback has run with exactly the reply of its place, those that were waiting
      before first. Nothing has gone astray, and the context goes on, unless a callback asks to
      end it. */
  method Exchange(ctx: AsyncContext, requests: seq<Request>, replies: seq<Reply>)
    requires ctx.Settled() && !ctx.freed && !ctx.aborted && ctx.cerr == 0 && Connected in ctx.flags
    requires Disconnecting !in ctx.flags && Freeing !in ctx.flags && Subscribed !in ctx.flags
    requires forall i :: 0 <= i < |requests| ==> Ordinary(requests[i].argv)
    requires |replies| <= |ctx.pending.queue| + |requests|
    requires NobodyEnds(ctx.user, ctx.calls, ctx.calls + |replies|)
    modifies ctx, ctx.pending, ctx.pending.repr
    ensures ctx.Settled() && !ctx.freed && !ctx.aborted
    ensures var waiting := old(ctx.pending.queue) + Callbacks(requests);
      && ctx.hist.trace == old(ctx.hist.trace) + Answers(waiting[..|replies|], replies)
      && waiting[|replies|..] <= ctx.pending.queue && ctx.hist.strays == old(ctx.hist.strays)
  {
    hide Stepped, Proper, Waits, Answers, NobodyEnds, Ordinary;
    ghost var a, u := ctx.Now(), ctx.user;
    SendAll(ctx, requests);
    ghost var b := ctx.Now();
    StillCalm(a, Callbacks(requests), b);
    ctx.Step(Readable(Established, Data(replies, false)));
    ExchangeMeans(u, a, Callbacks(requests), b, replies, ctx.Now());
  }
}
