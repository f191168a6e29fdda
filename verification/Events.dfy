/** What happens to an asynchronous context from outside, and what that makes of its state:
    single events and whole runs. */
module Events {
  import opened Bytes
  import opened Resp
  import opened Dict
  import opened History
  import opened Ledger
  import opened Machine
  import opened PubSub

  datatype ConnectResult = Established | InProgress | Refused

  datatype ReadResult = Nothing | ReadError | EndOfFile | Data(replies: seq<Reply>, broken: bool)

  datatype WriteResult = Wrote(n: nat) | WriteError

  datatype Input =
    | Asks(action: Action)
    | Readable(conn: ConnectResult, read: ReadResult)
    | Writable(conn: ConnectResult, write: WriteResult)

  // ------------------------------------------------------------------------
  // What is read

  /** The replies that a read brings. */
  function Replies(read: ReadResult): seq<Reply> {
    if read.Data? then read.replies else []
  }

  /** Whether an event finds the connection established. */
  predicate Connects(input: Input) {
    !input.Asks? && input.conn.Established?
  }

  predicate ConnectedAfter(inputs: seq<Input>, connected: bool) {
    connected || exists i :: 0 <= i < |inputs| && Connects(inputs[i])
  }

  /** The replies that an event brings: nothing is read before the connection is up. */
  function ReadBy(input: Input, connected: bool): seq<Reply> {
    if input.Readable? && (connected || Connects(input)) then Replies(input.read) else []
  }

  /** The replies that a whole run of events brings. */
  function ReadOf(inputs: seq<Input>, connected: bool): seq<Reply> {
    if inputs == [] then []
    else
      var earlier := inputs[..|inputs| - 1];
      ReadOf(earlier, connected) + ReadBy(inputs[|inputs| - 1], ConnectedAfter(earlier, connected))
  }

  lemma ReadOfSnoc(inputs: seq<Input>, n: nat, connected: bool)
    requires n < |inputs|
    ensures ReadOf(inputs[..n + 1], connected)
         == ReadOf(inputs[..n], connected) + ReadBy(inputs[n], ConnectedAfter(inputs[..n], connected))
    ensures ConnectedAfter(inputs[..n + 1], connected)
       <==> ConnectedAfter(inputs[..n], connected) || Connects(inputs[n])
  {
    assert inputs[..n + 1][..n] == inputs[..n];
    assert forall i :: 0 <= i < n ==> inputs[..n + 1][i] == inputs[..n][i];
    assert inputs[..n + 1][n] == inputs[n];
  }

  lemma {:induction false} ReadOfPrefix(inputs: seq<Input>, n: nat, connected: bool)
    requires n <= |inputs|
    ensures ReadOf(inputs[..n], connected) <= ReadOf(inputs, connected)
    decreases |inputs| - n
  {
    if n < |inputs| {
      ReadOfSnoc(inputs, n, connected);
      ReadOfPrefix(inputs, n + 1, connected);
    } else {
      assert inputs[..n] == inputs;
    }
  }

  // ------------------------------------------------------------------------
  // What an event does

  /** What the user asks for outside the callbacks. */
  function Demanded(a: Snapshot, action: Action): Progress {
    match action
    case Issue(fn, privdata, argv) => Going(Commanded(a, fn, privdata, argv))
    case Disconnect =>
      var b := a.(flags := a.flags + {Disconnecting});
      if a.queue == [] then Ending(Hung(b)) else Going(b)
    case Free => Ending(a.(flags := a.flags + {Freeing}))
  }

  function Told(u: User, a: Snapshot, ok: bool): Snapshot {
    a.(hist := a.hist.(trace := a.hist.trace + Greeting(u.onConnect, ok)))
  }

  /** The first read or write event finds out about the connection. An attempt that is still
      in progress leaves an error behind. */
  function Met(u: User, a: Snapshot, conn: ConnectResult): Progress {
    if Connected in a.flags then Going(a)
    else
      match conn
      case Established => Going(Told(u, a.(flags := a.flags + {Connected}), true))
      case InProgress => Going(a.(cerr := ERR_IO))
      case Refused => Failing(Told(u, a, false), ERR_IO)
  }

  /** A write: an error left behind, or of the write, is the end; otherwise what was written
      leaves the output buffer. */
  function Written(a: Snapshot, write: WriteResult): Progress {
    if a.cerr != 0 then Ending(Hung(a))
    else if a.obuf == [] then Going(a)
    else
      match write
      case WriteError => Failing(a, ERR_IO)
      case Wrote(n) =>
        var k := if n < |a.obuf| then n else |a.obuf|;
        Going(a.(obuf := a.obuf[k..], hist := a.hist.(sent := a.hist.sent + a.obuf[..k])))
  }

  /** So many replies have arrived. */
  function Arrived(a: Snapshot, k: nat): Snapshot {
    a.(hist := a.hist.(arrivals := a.hist.arrivals + Arriving(|a.hist.accepted|, k)))
  }

  /** A read: an error left behind, or of the read, is the end; otherwise the replies are
      processed. */
  function Received(u: User, a: Snapshot, read: ReadResult): Progress {
    if a.cerr != 0 then Ending(Hung(a))
    else
      match read
      case ReadError => Failing(a, ERR_IO)
      case EndOfFile => Failing(a, ERR_EOF)
      case _ => Processed(u, Arrived(a, |Replies(read)|), Replies(read), read.Data? && read.broken)
  }

  /** An event of the socket, once the connection is up. */
  function OnSocket(u: User, a: Snapshot, input: Input): Progress
    requires !input.Asks?
  {
    if input.Readable? then Received(u, a, input.read) else Written(a, input.write)
  }

  /** What an event comes to. */
  function After(u: User, a: Snapshot, input: Input): Progress {
    if input.Asks? then Demanded(a, input.action)
    else
      var p := Met(u, a, input.conn);
      if p.Ending? || Connected !in p.state.flags then p else OnSocket(u, p.state, input)
  }

  /** An event of the socket meets the connection first, and goes on if that is up. */
  lemma OnceMet(u: User, a: Snapshot, input: Input, b: Snapshot, up: bool, c: Snapshot)
    requires !input.Asks? && Reached(u, Met(u, a, input.conn), b)
    requires up == (Met(u, a, input.conn).Going? && Connected in Met(u, a, input.conn).state.flags)
    requires if up then Reached(u, OnSocket(u, b, input), c) else c == b
    ensures Reached(u, After(u, a, input), c)
  {
  }

  lemma OnceArrived(a: Snapshot, k: nat)
    requires Good(a)
    ensures Good(Arrived(a, k))
  {
  }

  /** The state after an event, from the state before. */
  ghost predicate Stepped(u: User, a: Snapshot, input: Input, b: Snapshot) {
    Reached(u, After(u, a, input), b)
  }

  /** A run: the states before and after each event, up to the last one or to the end of
      the context. */
  ghost predicate Path(u: User, states: seq<Snapshot>, inputs: seq<Input>) {
    && 0 < |states| <= |inputs| + 1
    && (forall i :: 0 <= i < |states| - 1 ==> !Over(states[i]) && Stepped(u, states[i], inputs[i], states[i + 1]))
    && (|states| <= |inputs| ==> Over(states[|states| - 1]))
  }

  lemma PathSnoc(u: User, states: seq<Snapshot>, inputs: seq<Input>, n: nat, next: Snapshot)
    requires n < |inputs| && |states| == n + 1 && Path(u, states, inputs[..n])
    requires !Over(states[n]) && Stepped(u, states[n], inputs[n], next)
    ensures Path(u, states + [next], inputs[..n + 1])
  {
    hide Stepped;
    var longer := states + [next];
    forall i | 0 <= i < |longer| - 1
      ensures !Over(longer[i]) && Stepped(u, longer[i], inputs[..n + 1][i], longer[i + 1])
    {
      if i < n {
        assert inputs[..n + 1][i] == inputs[..n][i];
        assert longer[i] == states[i] && longer[i + 1] == states[i + 1];
      }
    }
  }

  /** A path that has come to its end early is a path of all events. */
  lemma PathEnds(u: User, states: seq<Snapshot>, inputs: seq<Input>, n: nat)
    requires n <= |inputs| && |states| == n + 1 && Path(u, states, inputs[..n])
    requires n == |inputs| || Over(states[n])
    ensures Path(u, states, inputs)
  {
    hide Stepped;
    forall i | 0 <= i < |states| - 1
      ensures !Over(states[i]) && Stepped(u, states[i], inputs[i], states[i + 1])
    {
      assert inputs[..n][i] == inputs[i];
    }
  }

  // ------------------------------------------------------------------------
  // Who gets a reply

  /** In every read each reply is taken in the state that those before it leave, as long as
      the context lives. */
  lemma EachTaken(u: User, a: Snapshot, replies: seq<Reply>, n: nat)
    requires n < |replies|
    ensures var t := TakenAll(u, a, replies[..n]);
      TakenAll(u, a, replies[..n + 1])
        == if Ongoing(t.after) then Taken(u, t.after.state, t.cb, replies[n]) else t
  {
    assert replies[..n + 1][..n] == replies[..n];
  }

  /** While a command waits, the reply is for the oldest one. */
  lemma OldestAnswered(u: User, a: Snapshot, cb: Callback, reply: Reply)
    requires a.queue != []
    ensures var s := Taken(u, a, cb, reply).after.state;
      && s.hist.trace == a.hist.trace + RunOf(Regular, a.queue[0], Some(reply))
      && a.queue[1..] <= s.queue && s.hist.strays == a.hist.strays && s.freed == a.freed && s.aborted == a.aborted
  {
    var t := a.queue[0];
    CalledNotes(u, a.(queue := a.queue[1..], hist := Serving(a.hist, t, Some(reply))), Regular, t, Some(reply));
  }

  /** A well-formed message for a registered name, that finds no command waiting, runs the
      callback that was registered last, and no other. An unsubscription takes the name off
      the table. */
  lemma MessageRouted(u: User, a: Snapshot, cb: Callback, reply: Reply)
    requires a.queue == [] && Subscribed in a.flags && IsMessage(reply)
    requires reply.items[1].text in TableOf(a, reply) && (Unsubscribed(reply) ==> Counts(reply))
    ensures var s, m := Taken(u, a, cb, reply).after.state, TableOf(a, reply)[reply.items[1].text];
      && s.hist.trace == a.hist.trace + RunOf(Message, m, Some(reply)) && s.aborted == a.aborted
      && (m.fn.None? && Unsubscribed(reply) ==> reply.items[1].text !in TableOf(s, reply))
  {
    var s := a.(hist := Straying(a.hist, reply));
    var d := Addressed(s, reply, cb);
    CalledNotes(u, d.after, d.source, d.cb, Some(reply));
  }

  /** A reply that is no array, and no error, and finds no command waiting, runs the oldest
      callback that was put aside while subscribed. */
  lemma AsideAnswered(u: User, a: Snapshot, cb: Callback, reply: Reply)
    requires a.queue == [] && Subscribed in a.flags && a.late != []
    requires !reply.Array? && !reply.Hollow? && !reply.Failure?
    ensures var s := Taken(u, a, cb, reply).after.state;
      && s.hist.trace == a.hist.trace + RunOf(Invalid, a.late[0], Some(reply)) && s.aborted == a.aborted
      && s.hist.asideServed == a.hist.asideServed + [Served(a.late[0], Some(reply))] && a.late[1..] <= s.late
  {
    var s := a.(hist := Straying(a.hist, reply));
    var d := Addressed(s, reply, cb);
    CalledNotes(u, d.after, d.source, d.cb, Some(reply));
  }

  /** A message for another name runs the callback that the previous reply has left at
      hand. */
  lemma StaleRuns(u: User, a: Snapshot, cb: Callback, reply: Reply)
    requires a.queue == [] && Subscribed in a.flags && IsMessage(reply)
    requires reply.items[1].text !in TableOf(a, reply)
    ensures var s := Taken(u, a, cb, reply).after.state;
      s.hist.trace == a.hist.trace + RunOf(Stale, cb, Some(reply)) && s.aborted == a.aborted
  {
    CalledNotes(u, a.(hist := Straying(a.hist, reply)), Stale, cb, Some(reply));
  }

  // ------------------------------------------------------------------------
  // Nothing is undone, and replies are taken in order

  /** Histories grow, nothing arrives, and the connection stays up or down. */
  predicate Moves(a: Snapshot, b: Snapshot) {
    && Before(a.hist, b.hist) && b.hist.arrivals == a.hist.arrivals && b.hist.sent == a.hist.sent
    && a.calls <= b.calls
    && (Connected in b.flags <==> Connected in a.flags)
  }

  lemma CalledMoves(u: User, a: Snapshot, source: Source, cb: Callback, reply: Option<Reply>)
    ensures var b := Called(u, a, source, cb, reply);
      Moves(a, b) && b.hist.received == a.hist.received && b.hist.strays == a.hist.strays
  {
    CalledNotes(u, a, source, cb, reply);
  }

  lemma MessageMoves(u: User, a: Snapshot, cb: Callback, reply: Reply)
    ensures var s := TakenMessage(u, a, cb, reply).after.state; Moves(a, s) && s.hist.received == a.hist.received
  {
    hide Called;
    var d := Addressed(a, reply, cb);
    CalledMoves(u, d.after, d.source, d.cb, Some(reply));
  }

  lemma TakenMoves(u: User, a: Snapshot, cb: Callback, reply: Reply)
    ensures var s := Taken(u, a, cb, reply).after.state; Moves(a, s) && s.hist.received == a.hist.received + [reply]
  {
    hide Called, TakenMessage;
    if a.queue != [] {
      var t := a.queue[0];
      CalledMoves(u, a.(queue := a.queue[1..], hist := Serving(a.hist, t, Some(reply))), Regular, t, Some(reply));
    } else {
      MessageMoves(u, a.(hist := Straying(a.hist, reply)), cb, reply);
    }
  }

  lemma AssocReplies(x: seq<Reply>, y: seq<Reply>, z: seq<Reply>)
    ensures x + y + z == x + (y + z)
  {
  }

  lemma {:induction false} TakenAllMoves(u: User, a: Snapshot, replies: seq<Reply>)
    ensures var p := TakenAll(u, a, replies).after;
      && Moves(a, p.state) && p.state.hist.received <= a.hist.received + replies
      && (Ongoing(p) ==> p.state.hist.received == a.hist.received + replies)
  {
    if replies != [] {
      var front, last := replies[..|replies| - 1], replies[|replies| - 1];
      TakenAllMoves(u, a, front);
      var t := TakenAll(u, a, front);
      assert replies == front + [last];
      AssocReplies(a.hist.received, front, [last]);
      if Ongoing(t.after) {
        TakenMoves(u, t.after.state, t.cb, last);
      }
    }
  }

  lemma TornMoves(u: User, s: Snapshot, b: Snapshot)
    requires Torn(u, s, b)
    ensures Moves(s, b) && b.freed && b.aborted == s.aborted && b.err == s.err && b.cerr == s.cerr && b.obuf == s.obuf
    ensures b.hist.received == s.hist.received && b.hist.strays == s.hist.strays && b.queue == []
    ensures b.flags == s.flags + Wishes(u, s.calls, b.calls)
  {
  }

  /** The replies that an event finds: if an error was left behind, nothing is read. */
  function Brought(a: Snapshot, input: Input): seq<Reply> {
    if a.cerr == 0 then ReadBy(input, Connected in a.flags) else []
  }

  lemma FinishedMoves(p: Progress, broken: bool)
    ensures var q := Finished(p, broken);
      Moves(p.state, q.state) && q.state.hist == p.state.hist && (Ongoing(q) ==> Ongoing(p))
  {
  }

  /** From before to after an event, as far as that goes before any teardown: what arrives
      comes in, and the replies that are read are taken. */
  predicate Advances(a: Snapshot, brought: seq<Reply>, p: Progress) {
    var h := p.state.hist;
    && Before(a.hist, h) && a.calls <= p.state.calls
    && h.arrivals == a.hist.arrivals + Arriving(|a.hist.accepted|, |brought|)
    && h.received <= a.hist.received + brought && (Ongoing(p) ==> h.received == a.hist.received + brought)
  }

  lemma AdvancesNothing(a: Snapshot, p: Progress)
    requires Before(a.hist, p.state.hist) && a.calls <= p.state.calls
    requires p.state.hist.arrivals == a.hist.arrivals && p.state.hist.received == a.hist.received
    ensures Advances(a, [], p)
  {
  }

  lemma ReceivedAdvances(u: User, a: Snapshot, read: ReadResult)
    ensures var p := Received(u, a, read);
      && Advances(a, if a.cerr == 0 then Replies(read) else [], p)
      && (Connected in p.state.flags <==> Connected in a.flags)
  {
    var p := Received(u, a, read);
    if a.cerr != 0 || read.ReadError? || read.EndOfFile? {
      AdvancesNothing(a, p);
    } else {
      var b := Arrived(a, |Replies(read)|);
      TakenAllMoves(u, b, Replies(read));
      FinishedMoves(TakenAll(u, b, Replies(read)).after, read.Data? && read.broken);
    }
  }

  lemma DemandedAdvances(a: Snapshot, action: Action)
    ensures var p := Demanded(a, action);
      Advances(a, [], p) && (Connected in p.state.flags <==> Connected in a.flags)
  {
    if action.Issue? {
      CommandedNotes(a, action.fn, action.privdata, action.argv);
    }
    AdvancesNothing(a, Demanded(a, action));
  }

  lemma MetAdvances(u: User, a: Snapshot, conn: ConnectResult)
    ensures var p := Met(u, a, conn);
      && Advances(a, [], p) && p.state.hist.accepted == a.hist.accepted && (p.Going? ==> p.state.aborted == a.aborted)
      && (Connected in p.state.flags <==> Connected in a.flags || conn.Established?)
      && (Connected in p.state.flags ==> p.Going? && p.state.cerr == a.cerr)
  {
    AdvancesNothing(a, Met(u, a, conn));
  }

  lemma AdvancesJoin(a: Snapshot, b: Snapshot, brought: seq<Reply>, p: Progress)
    requires Advances(a, [], Going(b)) && !b.aborted && b.hist.accepted == a.hist.accepted && Advances(b, brought, p)
    ensures Advances(a, brought, p)
  {
  }

  lemma AfterAdvances(u: User, a: Snapshot, input: Input)
    requires !Over(a)
    ensures var p := After(u, a, input);
      && Advances(a, Brought(a, input), p)
      && (Connected in p.state.flags <==> Connected in a.flags || Connects(input))
  {
    hide Met, Received, Demanded;
    if input.Asks? {
      DemandedAdvances(a, input.action);
    } else {
      MetAdvances(u, a, input.conn);
      var m := Met(u, a, input.conn).state;
      if Connected in m.flags && input.Readable? {
        ReceivedAdvances(u, m, input.read);
        AdvancesJoin(a, m, Brought(a, input), After(u, a, input));
      } else if Connected in m.flags {
        AdvancesNothing(m, Written(m, input.write));
        AdvancesJoin(a, m, [], After(u, a, input));
      }
    }
  }

  /** Whatever happens, histories only grow, the connection comes up once, and replies
      arrive when they are read. */
  lemma SteppedOnward(u: User, a: Snapshot, input: Input, b: Snapshot)
    requires !Over(a) && Stepped(u, a, input, b)
    ensures Before(a.hist, b.hist) && a.calls <= b.calls
    ensures b.hist.arrivals == a.hist.arrivals + Arriving(|a.hist.accepted|, |Brought(a, input)|)
    ensures Connected in b.flags <==> Connected in a.flags || Connects(input)
  {
    AfterAdvances(u, a, input);
    if After(u, a, input).Ending? {
      TornMoves(u, After(u, a, input).state, b);
    }
  }

  /** An event takes the replies that it brings, in order, and all of them unless it is the
      end of the context. */
  lemma SteppedReads(u: User, a: Snapshot, input: Input, b: Snapshot)
    requires !Over(a) && Stepped(u, a, input, b)
    ensures b.hist.received <= a.hist.received + Brought(a, input)
    ensures Over(b) || b.hist.received == a.hist.received + ReadBy(input, Connected in a.flags)
  {
    AfterAdvances(u, a, input);
    if After(u, a, input).Ending? {
      TornMoves(u, After(u, a, input).state, b);
    }
  }

  /** What has been read in a run has been taken, all of it while the context lives. */
  predicate ReadSoFar(a: Snapshot, inputs: seq<Input>, b: Snapshot) {
    var connected := Connected in a.flags;
    && b.hist.received <= a.hist.received + ReadOf(inputs, connected)
    && (Over(b) || b.hist.received == a.hist.received + ReadOf(inputs, connected))
    && (Connected in b.flags <==> ConnectedAfter(inputs, connected))
  }

  predicate ReadEnds(a: Snapshot, inputs: seq<Input>, b: Snapshot) {
    var all := a.hist.received + ReadOf(inputs, Connected in a.flags);
    b.hist.received <= all && (Over(b) || b.hist.received == all)
  }

  lemma ReadSoFarStep(u: User, a: Snapshot, inputs: seq<Input>, n: nat, b: Snapshot, c: Snapshot)
    requires n < |inputs| && ReadSoFar(a, inputs[..n], b) && !Over(b) && Stepped(u, b, inputs[n], c)
    ensures ReadSoFar(a, inputs[..n + 1], c)
  {
    var connected := Connected in a.flags;
    ReadOfSnoc(inputs, n, connected);
    SteppedOnward(u, b, inputs[n], c);
    SteppedReads(u, b, inputs[n], c);
    AssocReplies(a.hist.received, ReadOf(inputs[..n], connected),
                 ReadBy(inputs[n], ConnectedAfter(inputs[..n], connected)));
  }

  // ------------------------------------------------------------------------
  // While commands wait for all replies

  /** k replies were taken by waiting commands: none went astray, no assertion failed, no
      error came up, and only what callbacks asked for may be the end. */
  predicate Answering(u: User, a: Snapshot, k: nat, p: Progress) {
    var b := p.state;
    && b.hist.strays == a.hist.strays && !b.aborted && b.cerr == a.cerr && b.err == a.err
    && a.calls <= b.calls
    && a.flags + Wishes(u, a.calls, b.calls) <= b.flags <= a.flags + Wishes(u, a.calls, b.calls) + {Subscribed}
    && (if p.Ending? then Freeing in b.flags else |b.queue| + k >= |a.queue| && Freeing !in b.flags)
  }

  lemma TakenAnswers(u: User, a: Snapshot, cb: Callback, reply: Reply)
    requires Good(a) && !Over(a) && a.queue != []
    ensures Answering(u, a, 1, Taken(u, a, cb, reply).after)
  {
    var t := a.queue[0];
    CalledNotes(u, a.(queue := a.queue[1..], hist := Serving(a.hist, t, Some(reply))), Regular, t, Some(reply));
  }

  lemma AnsweringJoin(u: User, a: Snapshot, k: nat, b: Snapshot, p: Progress)
    requires Answering(u, a, k, Going(b)) && Answering(u, b, 1, p)
    ensures Answering(u, a, k + 1, p)
  {
    WishesJoin(u, a.calls, b.calls, p.state.calls);
  }

  lemma {:induction false} TakenAllAnswers(u: User, a: Snapshot, replies: seq<Reply>)
    requires Good(a) && !Over(a) && |replies| <= |a.queue|
    ensures Answering(u, a, |replies|, TakenAll(u, a, replies).after)
  {
    if replies != [] {
      var front, last := replies[..|replies| - 1], replies[|replies| - 1];
      TakenAllAnswers(u, a, front);
      TakenAllFit(u, a, front);
      var t := TakenAll(u, a, front);
      if Ongoing(t.after) {
        TakenAnswers(u, t.after.state, t.cb, last);
        AnsweringJoin(u, a, |front|, t.after.state, Taken(u, t.after.state, t.cb, last).after);
      }
    }
  }

  /** In good order no more replies are received than arrive, and none goes astray. */
  predicate Tidy(s: Snapshot) {
    && |s.hist.received| <= |s.hist.arrivals|
    && (Over(s) || |s.hist.received| == |s.hist.arrivals|)
    && (Orderly(s.hist) ==> s.hist.strays == [] && !s.aborted)
  }

  /** The states between events. */
  ghost predicate Proper(s: Snapshot) {
    Good(s) && Tidy(s) && Booked(s)
  }

  /** If replies come in good order, commands wait for all that arrive together. */
  lemma EnoughWait(a: Snapshot, k: nat)
    requires Proper(a) && !Over(a) && Orderly(Arrived(a, k).hist)
    ensures k <= |a.queue| && a.hist.strays == []
  {
    OrderlyArrival(a.hist, k);
    GivenAt(a.hist.served, a.hist.answered);
    assert |a.hist.accepted| == |a.hist.served| + |a.queue|;
  }

  /** Nothing goes wrong: there is no error, and what callbacks asked for is noted. A read
      may end the context, exactly if a callback asked to free it, or if disconnecting was
      asked for and nothing is left to send or to wait for. */
  predicate Quietly(u: User, a: Snapshot, p: Progress, reading: bool) {
    var b := p.state;
    && !b.aborted && b.cerr == 0 && b.err == 0 && a.calls <= b.calls
    && a.flags + Wishes(u, a.calls, b.calls) <= b.flags
    && b.flags <= a.flags + Wishes(u, a.calls, b.calls) + {Subscribed, Connected}
    && (p.Ending? <==>
         reading && (Freeing in b.flags || (Disconnecting in b.flags && b.obuf == [] && b.queue == [])))
  }

  /** What comes of a read whose replies commands wait for. */
  lemma ProcessedAnswers(u: User, a: Snapshot, replies: seq<Reply>, broken: bool)
    requires Good(a) && !Over(a) && |replies| <= |a.queue|
    ensures var p := Processed(u, a, replies, broken);
      && p.state.hist.strays == a.hist.strays && !p.state.aborted
      && (!broken && a.cerr == 0 ==> Quietly(u, a, p, true))
  {
    TakenAllAnswers(u, a, replies);
  }

  // ------------------------------------------------------------------------
  // When a context ends with an error

  /** Whether an event of the socket goes well: the connection is up, there is no error, and
      commands wait for all replies that it brings. */
  predicate GoesWell(a: Snapshot, input: Input)
    requires !input.Asks?
  {
    && (Connected in a.flags || input.conn.Established?)
    && if input.Readable? then
         (input.read.Nothing? || (input.read.Data? && !input.read.broken)) && |Replies(input.read)| <= |a.queue|
       else input.write.Wrote?
  }

  /** An error left behind ends the context at the next event that finds the connection up,
      however that event goes. */
  lemma LeftBehind(u: User, a: Snapshot, input: Input, b: Snapshot)
    requires !Over(a) && a.cerr != 0 && !input.Asks? && (Connected in a.flags || input.conn.Established?)
    requires Stepped(u, a, input, b)
    ensures b.freed && b.err == a.cerr
  {
    TornMoves(u, After(u, a, input).state, b);
  }

  /** An attempt to connect that is still in progress leaves an error behind. */
  lemma ProgressLeaves(u: User, a: Snapshot, input: Input, b: Snapshot)
    requires !Over(a) && Connected !in a.flags && !input.Asks? && input.conn.InProgress? && Stepped(u, a, input, b)
    ensures b == a.(cerr := ERR_IO)
  {
  }

  /** Until then it stays, whatever the user asks for and however often the connection is
      found in progress. */
  lemma ErrorStays(u: User, a: Snapshot, input: Input, b: Snapshot)
    requires !Over(a) && a.cerr == ERR_IO && Connected !in a.flags && Stepped(u, a, input, b) && !Over(b)
    ensures b.cerr == ERR_IO && Connected !in b.flags
  {
    if input.Asks? && input.action.Issue? {
      CommandedNotes(a, input.action.fn, input.action.privdata, input.action.argv);
    }
  }

  /** In a whole run: after an attempt that was found in progress, the first event that finds
      the connection established frees the context with the error of that attempt. */
  lemma {:induction false} FailsAfterProgress(u: User, states: seq<Snapshot>, inputs: seq<Input>, k: nat, n: nat)
    requires Path(u, states, inputs) && k < n < |states| - 1
    requires Connected !in states[k].flags && !inputs[k].Asks? && inputs[k].conn.InProgress?
    ensures states[n].cerr == ERR_IO && Connected !in states[n].flags
    ensures Connects(inputs[n]) ==> states[n + 1].freed && states[n + 1].err == ERR_IO
    decreases n
  {
    if n == k + 1 {
      ProgressLeaves(u, states[k], inputs[k], states[n]);
    } else {
      FailsAfterProgress(u, states, inputs, k, n - 1);
      ErrorStays(u, states[n - 1], inputs[n - 1], states[n]);
    }
    if Connects(inputs[n]) {
      LeftBehind(u, states[n], inputs[n], states[n + 1]);
    }
  }

  lemma MetGood(u: User, a: Snapshot, conn: ConnectResult)
    requires Good(a) && !Over(a)
    ensures var p := Met(u, a, conn); Fit(p) && (p.Going? ==> !p.state.aborted)
  {
    if Connected !in a.flags {
      Greeted(a.hist.trace, u.onConnect, conn.Established?);
    }
  }

  lemma DemandedFit(a: Snapshot, action: Action)
    requires Good(a) && !Over(a)
    ensures Fit(Demanded(a, action))
  {
    if action.Issue? {
      CommandedNotes(a, action.fn, action.privdata, action.argv);
      SteadyNoting(a, {}, Commanded(a, action.fn, action.privdata, action.argv));
    }
  }

  lemma WrittenFit(a: Snapshot, write: WriteResult)
    requires Good(a) && !Over(a)
    ensures Fit(Written(a, write))
  {
  }

  lemma ReceivedFit(u: User, a: Snapshot, read: ReadResult)
    requires Good(a) && !Over(a)
    ensures Fit(Received(u, a, read))
  {
    if a.cerr == 0 && !read.ReadError? && !read.EndOfFile? {
      var b := Arrived(a, |Replies(read)|);
      TakenAllFit(u, b, Replies(read));
      FinishedFit(TakenAll(u, b, Replies(read)).after, read.Data? && read.broken);
    }
  }

  lemma OnSocketFit(u: User, a: Snapshot, input: Input)
    requires Good(a) && !Over(a) && !input.Asks?
    ensures Fit(OnSocket(u, a, input))
  {
    if input.Readable? {
      ReceivedFit(u, a, input.read);
    } else {
      WrittenFit(a, input.write);
    }
  }

  /** Every event comes to a state in order, or to one that may be torn down. */
  lemma AfterFit(u: User, a: Snapshot, input: Input)
    requires Good(a) && !Over(a)
    ensures Fit(After(u, a, input))
  {
    if input.Asks? {
      DemandedFit(a, input.action);
    } else {
      MetGood(u, a, input.conn);
      var m := Met(u, a, input.conn);
      if m.Going? {
        OnSocketFit(u, m.state, input);
      }
    }
  }

  lemma QuietlyFrom(u: User, a: Snapshot, m: Snapshot, p: Progress, reading: bool)
    requires Quietly(u, m, p, reading) && m.calls == a.calls && a.flags <= m.flags <= a.flags + {Connected}
    ensures Quietly(u, a, p, reading)
  {
  }

  lemma OnSocketQuietly(u: User, a: Snapshot, input: Input)
    requires Good(a) && !Over(a) && a.cerr == 0 && !input.Asks? && GoesWell(a, input)
    ensures Quietly(u, a, OnSocket(u, a, input), input.Readable?)
  {
    if input.Readable? {
      ProcessedAnswers(u, Arrived(a, |Replies(input.read)|), Replies(input.read), false);
    }
  }

  lemma AfterQuietly(u: User, a: Snapshot, input: Input)
    requires Good(a) && !Over(a) && a.cerr == 0 && !input.Asks? && GoesWell(a, input)
    ensures Quietly(u, a, After(u, a, input), input.Readable?)
  {
    var m := Met(u, a, input.conn).state;
    MetGood(u, a, input.conn);
    OnSocketQuietly(u, m, input);
    QuietlyFrom(u, a, m, After(u, a, input), input.Readable?);
  }

  /** To disconnect or to free is noted exactly if it was before or a callback asked for it. */
  predicate Heeded(u: User, a: Snapshot, b: Snapshot) {
    forall f :: f in {Disconnecting, Freeing} ==> (f in b.flags <==> f in a.flags || f in Wishes(u, a.calls, b.calls))
  }

  lemma QuietlyReached(u: User, a: Snapshot, p: Progress, reading: bool, b: Snapshot)
    requires Quietly(u, a, p, reading) && !p.state.freed && Reached(u, p, b)
    ensures !b.aborted && b.err == 0 == b.cerr && Heeded(u, a, b)
    ensures b.freed <==> reading && (Freeing in b.flags || (Disconnecting in b.flags && b.obuf == [] && b.queue == []))
  {
    if p.Ending? {
      TornMoves(u, p.state, b);
      WishesJoin(u, a.calls, p.state.calls, b.calls);
    }
  }

  /** An event that goes well frees the context with an error if and only if one was left
      behind, and with that one. Otherwise there is no error after it; a write leaves the
      context alive, and a read frees it if and only if a callback asked for that, or
      disconnecting was asked for and nothing is left to send or to wait for. */
  lemma EndsWell(u: User, a: Snapshot, input: Input, b: Snapshot)
    requires Good(a) && !Over(a) && !input.Asks? && GoesWell(a, input) && Stepped(u, a, input, b)
    ensures !b.aborted && b.err == a.cerr == b.cerr
    ensures b.freed && b.err != 0 <==> a.cerr != 0
    ensures a.cerr == 0 ==> Heeded(u, a, b)
    ensures a.cerr == 0 ==>
      (b.freed <==>
        input.Readable? && (Freeing in b.flags || (Disconnecting in b.flags && b.obuf == [] && b.queue == [])))
  {
    var p := After(u, a, input);
    if a.cerr != 0 {
      LeftBehind(u, a, input, b);
      TornMoves(u, p.state, b);
    } else {
      AfterQuietly(u, a, input);
      AfterFit(u, a, input);
      QuietlyReached(u, a, p, input.Readable?, b);
    }
  }

  // ------------------------------------------------------------------------
  // The log, and the bytes that are sent

  lemma BookedReceived(u: User, a: Snapshot, read: ReadResult)
    requires Good(a) && Booked(a) && !Over(a)
    ensures BookedSoFar(Received(u, a, read))
  {
    if a.cerr == 0 && !read.ReadError? && !read.EndOfFile? {
      var b := Arrived(a, |Replies(read)|);
      BookedTakenAll(u, b, Replies(read));
      BookedFinished(TakenAll(u, b, Replies(read)).after, read.Data? && read.broken);
    }
  }

  lemma BookedWritten(a: Snapshot, write: WriteResult)
    requires Booked(a) && !Over(a)
    ensures BookedSoFar(Written(a, write))
  {
    if a.cerr == 0 && a.obuf != [] && write.Wrote? {
      var k := if write.n < |a.obuf| then write.n else |a.obuf|;
      assert a.obuf == a.obuf[..k] + a.obuf[k..];
      Assoc(a.hist.sent, a.obuf[..k], a.obuf[k..]);
    }
  }

  lemma BookedMet(u: User, a: Snapshot, conn: ConnectResult)
    requires Booked(a) && !Over(a)
    ensures BookedSoFar(Met(u, a, conn))
  {
  }

  lemma BookedDemanded(a: Snapshot, action: Action)
    requires Booked(a) && !Over(a)
    ensures BookedSoFar(Demanded(a, action))
  {
    if action.Issue? {
      BookedCommanded(a, action.fn, action.privdata, action.argv);
      CommandedNotes(a, action.fn, action.privdata, action.argv);
    }
  }

  lemma BookedAfter(u: User, a: Snapshot, input: Input)
    requires Good(a) && Booked(a) && !Over(a)
    ensures BookedSoFar(After(u, a, input))
  {
    hide Booked, Good, Met, Received, Written;
    if input.Asks? {
      BookedDemanded(a, input.action);
    } else {
      BookedMet(u, a, input.conn);
      MetGood(u, a, input.conn);
      var m := Met(u, a, input.conn);
      if m.Going? && input.Readable? {
        BookedReceived(u, m.state, input.read);
      } else if m.Going? {
        BookedWritten(m.state, input.write);
      }
    }
  }

  /** After every event the log says what the context holds. */
  lemma BookedKept(u: User, a: Snapshot, input: Input, b: Snapshot)
    requires Good(a) && Booked(a) && !Over(a) && Stepped(u, a, input, b)
    ensures Booked(b)
  {
    BookedAfter(u, a, input);
    AfterFit(u, a, input);
    var p := After(u, a, input);
    if p.Ending? {
      TornMoves(u, p.state, b);
      assert b.hist.deeds == p.state.hist.deeds;
    }
  }

  /** What an event hands to the socket: a write that took n bytes got the first n bytes that
      waited, or all of them, and nothing else sends. */
  function HandedOver(a: Snapshot, input: Input): bytes {
    if input.Writable? && (Connected in a.flags || input.conn.Established?) && a.cerr == 0 && input.write.Wrote? then
      a.obuf[..if input.write.n < |a.obuf| then input.write.n else |a.obuf|]
    else []
  }

  lemma MetSends(u: User, a: Snapshot, conn: ConnectResult)
    ensures var p := Met(u, a, conn);
      && p.state.hist.sent == a.hist.sent && p.state.obuf == a.obuf
      && (p.Going? && Connected in p.state.flags ==> p.state.cerr == a.cerr)
      && (p.Going? && Connected in p.state.flags <==> Connected in a.flags || conn.Established?)
  {
  }

  lemma ReceivedSends(u: User, a: Snapshot, read: ReadResult)
    ensures Received(u, a, read).state.hist.sent == a.hist.sent
  {
    var b := Arrived(a, |Replies(read)|);
    TakenAllMoves(u, b, Replies(read));
  }

  lemma AfterSends(u: User, a: Snapshot, input: Input)
    requires !Over(a)
    ensures var s := After(u, a, input).state;
      && s.hist.sent == a.hist.sent + HandedOver(a, input)
      && (input.Writable? ==> s.obuf == a.obuf[|HandedOver(a, input)|..])
  {
    assert a.hist.sent + [] == a.hist.sent && a.obuf[0..] == a.obuf;
    if input.Asks? {
      if input.action.Issue? {
        CommandedNotes(a, input.action.fn, input.action.privdata, input.action.argv);
      }
    } else {
      MetSends(u, a, input.conn);
      var m := Met(u, a, input.conn).state;
      if input.Readable? {
        ReceivedSends(u, m, input.read);
      }
    }
  }

  lemma SentByEvent(u: User, a: Snapshot, input: Input, b: Snapshot)
    requires !Over(a) && Stepped(u, a, input, b)
    ensures b.hist.sent == a.hist.sent + HandedOver(a, input)
    ensures input.Writable? && !Over(b) ==> b.obuf == a.obuf[|HandedOver(a, input)|..]
  {
    assert a.hist.sent + [] == a.hist.sent && a.obuf[0..] == a.obuf;
    var p := After(u, a, input);
    AfterSends(u, a, input);
    if p.Ending? {
      TornMoves(u, p.state, b);
    }
  }

  // ------------------------------------------------------------------------
  // What ends a context, and what its user is told

  /** Errors of the socket and of the stream have codes: 1 for input and output, 3 for the end
      of the stream, 4 for the protocol, 2 for an error reply to nobody. */
  lemma SocketErrors(u: User, a: Snapshot, input: Input, b: Snapshot)
    requires !Over(a) && a.cerr == 0 && !input.Asks? && Stepped(u, a, input, b)
    requires Connected in a.flags || input.conn.Established?
    ensures input.Readable? && input.read.ReadError? ==> b.freed && b.err == 1
    ensures input.Readable? && input.read.EndOfFile? ==> b.freed && b.err == 3
    ensures input.Writable? && input.write.WriteError? && a.obuf != [] ==> b.freed && b.err == 1
    ensures input.Readable? && input.read.Data? && input.read.broken ==> Over(b)
    ensures input.Writable? && a.obuf == [] && Connected in a.flags ==> b == a
  {
    MetSends(u, a, input.conn);
    if After(u, a, input).Ending? {
      TornMoves(u, After(u, a, input).state, b);
    }
  }

  lemma StreamErrors(u: User, a: Snapshot, cb: Callback, reply: Reply, p: Progress)
    ensures Ongoing(p) ==> Finished(p, true).Ending? && Finished(p, true).state.err == 4
    ensures var q := Taken(u, a, cb, reply).after;
      && (a.queue == [] && reply.Failure? ==> q.Ending? && q.state.err == 2)
      && (a.queue == [] && !reply.Failure? && Subscribed !in a.flags ==> q.state.aborted)
  {
  }

  lemma ReceivedTold(u: User, a: Snapshot, read: ReadResult)
    ensures a.hist.trace <= Received(u, a, read).state.hist.trace
  {
    var b := Arrived(a, |Replies(read)|);
    TakenAllMoves(u, b, Replies(read));
  }

  /** A connect that is refused ends the context with an input error, and one that succeeds
      does not; the connect callback is called first, with the outcome. */
  lemma ConnectTold(u: User, a: Snapshot, input: Input, b: Snapshot)
    requires !Over(a) && Connected !in a.flags && !input.Asks? && Stepped(u, a, input, b)
    ensures input.conn.Refused? ==> b.freed && b.err == 1
    ensures input.conn.Refused? ==> a.hist.trace + (if u.onConnect then [Opened(false)] else []) <= b.hist.trace
    ensures input.conn.Established? ==> a.hist.trace + (if u.onConnect then [Opened(true)] else []) <= b.hist.trace
  {
    hide Received, Torn;
    var p, m := After(u, a, input), Met(u, a, input.conn).state;
    if input.conn.Established? && input.Readable? {
      ReceivedTold(u, m, input.read);
    }
    if p.Ending? {
      TornMoves(u, p.state, b);
    }
  }

  /** The user frees at once, and disconnects at once if nothing waits; otherwise that is
      noted. */
  lemma AsksToEnd(u: User, a: Snapshot, action: Action, b: Snapshot)
    requires !Over(a) && !action.Issue? && Stepped(u, a, Asks(action), b)
    ensures b.freed == (action == Free || a.queue == [])
    ensures !b.freed ==> b == a.(flags := a.flags + {Disconnecting})
  {
    if After(u, a, Asks(action)).Ending? {
      TornMoves(u, After(u, a, Asks(action)).state, b);
    }
  }

  /** The callbacks run without a reply, one after the other. */
  function Deserted(source: Source, cbs: seq<Callback>): seq<Event> {
    if cbs == [] then []
    else (if cbs[0].fn.Some? then [Ran(source, cbs[0], None)] else []) + Deserted(source, cbs[1..])
  }

  lemma {:induction false} UnansweredDeserted(source: Source, cbs: seq<Callback>)
    ensures Unanswered(source, cbs) == Deserted(source, cbs)
  {
    if cbs != [] {
      UnansweredDeserted(source, cbs[1..]);
    }
  }

  lemma ToldLast(trace: seq<Event>, told: bool, ok: bool)
    ensures trace + Conclusion(told, ok) == trace + (if told then [Closed(ok)] else []) + [Freed]
  {
  }

  /** The callbacks of these names. */
  function OfNames(m: map<bytes, Callback>, names: seq<bytes>): (cbs: seq<Callback>)
    requires Elems(names) <= m.Keys
    ensures |cbs| == |names| && forall i :: 0 <= i < |names| ==> cbs[i] == m[names[i]]
  {
    seq(|names|, i requires 0 <= i < |names| => m[names[i]])
  }

  lemma NotifiedTold(before: seq<Event>, m: map<bytes, Callback>, after: seq<Event>) returns (names: seq<bytes>)
    requires Notified(before, m, after)
    ensures NoDup(names) && Elems(names) == m.Keys && after == before + Deserted(Message, OfNames(m, names))
  {
    names :| Lists(names, m) && NotifiedIn(before, m, names, after);
    UnansweredDeserted(Message, Picked(m, names));
    assert Picked(m, names) == OfNames(m, names);
  }

  /** At the end of a context everybody who waits is run without a reply, in order, then
      whoever is registered for channels and then for patterns, each once; the last but one
      event is the call of the disconnect callback, if there is one and the connection was up,
      and the last is the free. */
  lemma TeardownTold(u: User, s: Snapshot, b: Snapshot) returns (names: seq<bytes>, pnames: seq<bytes>)
    requires Torn(u, s, b)
    ensures NoDup(names) && Elems(names) == s.channels.Keys && NoDup(pnames) && Elems(pnames) == s.patterns.Keys
    ensures b.hist.trace == s.hist.trace + Deserted(Regular, s.queue) + Deserted(Invalid, s.late)
      + Deserted(Message, OfNames(s.channels, names)) + Deserted(Message, OfNames(s.patterns, pnames))
      + (if u.onDisconnect && Connected in s.flags then [Closed(Freeing in b.flags || s.err == 0)] else []) + [Freed]
  {
    var c :| Drained(u, s, c) && c.queue == [] && c.late == []
      && AllRun(s.hist.trace, s.queue, s.late, s.channels, s.patterns, c.hist.trace) && b == Released(u, c);
    UnansweredDeserted(Regular, s.queue);
    UnansweredDeserted(Invalid, s.late);
    var start := s.hist.trace + Unanswered(Regular, s.queue) + Unanswered(Invalid, s.late);
    var mid :| Notified(start, s.channels, mid) && Notified(mid, s.patterns, c.hist.trace);
    hide Notified, Unanswered, Deserted, AllRun, BothNotified, Torn;
    names := NotifiedTold(start, s.channels, mid);
    pnames := NotifiedTold(mid, s.patterns, c.hist.trace);
    ToldLast(c.hist.trace, u.onDisconnect && Connected in c.flags, Freeing in c.flags || c.err == 0);
  }

  // ------------------------------------------------------------------------
  // Whole runs

  /** Nothing goes astray, and no assertion fails. */
  predicate NoStrays(a: Snapshot, p: Progress) {
    p.state.hist.strays == a.hist.strays && !p.state.aborted
  }

  lemma ReceivedStrays(u: User, a: Snapshot, read: ReadResult)
    requires Good(a) && !Over(a) && (a.cerr == 0 ==> |Replies(read)| <= |a.queue|)
    ensures NoStrays(a, Received(u, a, read))
  {
    if a.cerr == 0 && !read.ReadError? && !read.EndOfFile? {
      ProcessedAnswers(u, Arrived(a, |Replies(read)|), Replies(read), read.Data? && read.broken);
    }
  }

  lemma DemandedStrays(a: Snapshot, action: Action)
    requires !Over(a)
    ensures NoStrays(a, Demanded(a, action))
  {
    if action.Issue? {
      CommandedNotes(a, action.fn, action.privdata, action.argv);
    }
  }

  lemma OnSocketStrays(u: User, a: Snapshot, input: Input)
    requires Good(a) && !Over(a) && !input.Asks?
    requires a.cerr == 0 && input.Readable? ==> |Replies(input.read)| <= |a.queue|
    ensures NoStrays(a, OnSocket(u, a, input))
  {
    if input.Readable? {
      ReceivedStrays(u, a, input.read);
    }
  }

  lemma MetStrays(u: User, a: Snapshot, conn: ConnectResult)
    requires !Over(a)
    ensures var p := Met(u, a, conn);
      && NoStrays(a, p)
      && (p.Going? && Connected in p.state.flags ==>
           p.state.cerr == a.cerr && p.state.queue == a.queue && (Connected in a.flags || conn.Established?))
  {
  }

  lemma AfterStrays(u: User, a: Snapshot, input: Input)
    requires Good(a) && !Over(a) && |Brought(a, input)| <= |a.queue|
    ensures NoStrays(a, After(u, a, input))
  {
    if input.Asks? {
      DemandedStrays(a, input.action);
    } else {
      MetGood(u, a, input.conn);
      MetStrays(u, a, input.conn);
      var m := Met(u, a, input.conn);
      if m.Going? && Connected in m.state.flags {
        OnSocketStrays(u, m.state, input);
      }
    }
  }

  /** If no reply arrives before its command was accepted, none goes astray and no assertion
      fails. */
  lemma TidyKept(u: User, a: Snapshot, input: Input, b: Snapshot)
    requires Proper(a) && !Over(a) && Stepped(u, a, input, b)
    ensures Tidy(b) && (Orderly(b.hist) ==> |Brought(a, input)| <= |a.queue|)
  {
    SteppedOnward(u, a, input, b);
    SteppedReads(u, a, input, b);
    if Orderly(b.hist) {
      EnoughWait(a, |Brought(a, input)|);
      AfterStrays(u, a, input);
      if After(u, a, input).Ending? {
        TornMoves(u, After(u, a, input).state, b);
      }
    }
  }

  /** The context lives, without an error, and nobody has asked to end it. */
  predicate Calm(s: Snapshot) {
    !Over(s) && s.cerr == 0 && !Refuses(s.flags)
  }

  /** An event without an error: a command, or a read or write that succeeds once the
      connection is up. */
  predicate Quiet(input: Input, connected: bool) {
    match input
    case Asks(action) => action.Issue?
    case Readable(conn, read) =>
      (connected || conn.Established?) && (read.Nothing? || (read.Data? && !read.broken))
    case Writable(conn, write) => (connected || conn.Established?) && write.Wrote?
  }

  predicate AllQuiet(inputs: seq<Input>, connected: bool) {
    forall i :: 0 <= i < |inputs| ==> Quiet(inputs[i], ConnectedAfter(inputs[..i], connected))
  }

  lemma CalmStep(u: User, a: Snapshot, input: Input, b: Snapshot)
    requires Good(a) && Calm(a) && Quiet(input, Connected in a.flags) && Stepped(u, a, input, b)
    requires |Brought(a, input)| <= |a.queue| && Wishes(u, a.calls, b.calls) == {}
    ensures Calm(b)
  {
    if input.Asks? {
      CommandedNotes(a, input.action.fn, input.action.privdata, input.action.argv);
    } else {
      EndsWell(u, a, input, b);
    }
  }

  /** There is no error, nobody asks to end the context, and the replies come in good
      order. */
  predicate Undisturbed(u: User, a: Snapshot, inputs: seq<Input>, b: Snapshot) {
    Calm(a) && AllQuiet(inputs, Connected in a.flags) && Wishes(u, a.calls, b.calls) == {} && Orderly(b.hist)
  }

  predicate CalmSoFar(u: User, a: Snapshot, inputs: seq<Input>, b: Snapshot) {
    Undisturbed(u, a, inputs, b) ==> Calm(b)
  }

  lemma OrderlyBefore(h: History, h': History)
    requires Before(h, h') && Orderly(h')
    ensures Orderly(h)
  {
    assert forall i :: 0 <= i < |h.arrivals| ==> h.arrivals[i] == h'.arrivals[i];
  }

  lemma AllQuietPrefix(inputs: seq<Input>, n: nat, connected: bool)
    requires n <= |inputs| && AllQuiet(inputs, connected)
    ensures AllQuiet(inputs[..n], connected)
  {
    forall i | 0 <= i < n
      ensures Quiet(inputs[..n][i], ConnectedAfter(inputs[..n][..i], connected))
    {
      assert inputs[i] == inputs[..n][i] && inputs[..i] == inputs[..n][..i];
    }
  }

  lemma AllQuietFront(inputs: seq<Input>, n: nat, connected: bool)
    requires n < |inputs| && AllQuiet(inputs[..n + 1], connected)
    ensures AllQuiet(inputs[..n], connected) && Quiet(inputs[n], ConnectedAfter(inputs[..n], connected))
  {
    var more := inputs[..n + 1];
    assert more[..n] == inputs[..n] && more[n] == inputs[n];
    AllQuietPrefix(more, n, connected);
  }

  lemma CalmSoFarStep(u: User, a: Snapshot, inputs: seq<Input>, n: nat, b: Snapshot, c: Snapshot)
    requires n < |inputs| && a.calls <= b.calls
    requires CalmSoFar(u, a, inputs[..n], b) && ReadSoFar(a, inputs[..n], b)
    requires Proper(b) && !Over(b) && Stepped(u, b, inputs[n], c)
    ensures CalmSoFar(u, a, inputs[..n + 1], c) && a.calls <= c.calls
  {
    SteppedOnward(u, b, inputs[n], c);
    TidyKept(u, b, inputs[n], c);
    WishesJoin(u, a.calls, b.calls, c.calls);
    var connected := Connected in a.flags;
    if AllQuiet(inputs[..n + 1], connected) && Orderly(c.hist) {
      OrderlyBefore(b.hist, c.hist);
      AllQuietFront(inputs, n, connected);
      if Calm(b) && Wishes(u, b.calls, c.calls) == {} {
        CalmStep(u, b, inputs[n], c);
      }
    }
  }

  /** What a run of events has come to. */
  predicate Achieved(u: User, a: Snapshot, inputs: seq<Input>, b: Snapshot) {
    ReadSoFar(a, inputs, b) && CalmSoFar(u, a, inputs, b) && a.calls <= b.calls
  }

  lemma AchievedStep(u: User, a: Snapshot, inputs: seq<Input>, n: nat, b: Snapshot, c: Snapshot)
    requires n < |inputs| && Achieved(u, a, inputs[..n], b)
    requires Proper(b) && !Over(b) && Stepped(u, b, inputs[n], c)
    ensures Achieved(u, a, inputs[..n + 1], c)
  {
    ReadSoFarStep(u, a, inputs, n, b, c);
    CalmSoFarStep(u, a, inputs, n, b, c);
  }

  lemma AchievedNothing(u: User, a: Snapshot, inputs: seq<Input>)
    requires !Over(a)
    ensures Achieved(u, a, inputs[..0], a)
  {
    assert a.hist.received + [] == a.hist.received;
  }

  /** What a run has come to when it ends, at its last event or before. */
  lemma AchievedEnds(u: User, a: Snapshot, inputs: seq<Input>, n: nat, b: Snapshot)
    requires n <= |inputs| && Achieved(u, a, inputs[..n], b) && (n == |inputs| || Over(b))
    ensures ReadEnds(a, inputs, b) && CalmSoFar(u, a, inputs, b)
  {
    ReadOfPrefix(inputs, n, Connected in a.flags);
    if n == |inputs| {
      assert inputs[..n] == inputs;
    } else if AllQuiet(inputs, Connected in a.flags) {
      AllQuietPrefix(inputs, n, Connected in a.flags);
    }
  }
}
