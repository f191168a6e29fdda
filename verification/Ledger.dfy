/** What the log of commands and strays says is what the context holds: its tables and its
    mode are those of the log, and the bytes sent and still to be sent those of the commands. */
module Ledger {
  import opened Bytes
  import opened Resp
  import opened Command
  import opened Dict
  import opened History
  import opened Machine
  import opened PubSub
  import opened Subscriptions

  ghost predicate TableMeans(m: map<bytes, Callback>, deeds: seq<Deed>, pattern: bool) {
    forall name :: Latest(deeds, pattern, name) == if name in m then Some(m[name]) else None
  }

  ghost predicate ModeMeans(s: Snapshot) {
    && (Subscribed in s.flags <==> InMode(s.hist.deeds))
    && TableMeans(s.channels, s.hist.deeds, false) && TableMeans(s.patterns, s.hist.deeds, true)
  }

  /** Every byte of every command that was accepted has been sent, in order, or waits to be. */
  predicate OutputMeans(s: Snapshot) {
    s.hist.sent + s.obuf == Output(s.hist.deeds)
  }

  ghost predicate Booked(s: Snapshot) {
    OutputMeans(s) && (!Over(s) ==> ModeMeans(s))
  }

  // ------------------------------------------------------------------------
  // Commands

  lemma LatestIssued(deeds: seq<Deed>, argv: seq<bytes>, cb: Callback, pattern: bool, name: bytes)
    ensures Latest(deeds + [Issued(argv, cb)], pattern, name)
         == if Subscribes(argv, pattern) && name in argv[1..] then Some(cb) else Latest(deeds, pattern, name)
  {
    DeedSnoc(deeds, Issued(argv, cb));
  }

  lemma TableIssued(m: map<bytes, Callback>, deeds: seq<Deed>, argv: seq<bytes>, cb: Callback, pattern: bool)
    requires TableMeans(m, deeds, pattern) && argv != []
    ensures TableMeans(if Subscribes(argv, pattern) then Registered(m, argv[1..], cb) else m,
                       deeds + [Issued(argv, cb)], pattern)
  {
    forall name
      ensures Latest(deeds + [Issued(argv, cb)], pattern, name)
           == (var m' := if Subscribes(argv, pattern) then Registered(m, argv[1..], cb) else m;
               if name in m' then Some(m'[name]) else None)
    {
      LatestIssued(deeds, argv, cb, pattern, name);
    }
  }

  lemma NotBoth(argv: seq<bytes>)
    requires argv != []
    ensures !(Subscribes(argv, false) && Subscribes(argv, true))
  {
    ClassifyMeans(argv);
  }

  lemma ModeCommanded(a: Snapshot, fn: Option<nat>, privdata: nat, argv: CommandLine)
    requires ModeMeans(a) && Accepts(a.flags, argv)
    ensures ModeMeans(Commanded(a, fn, privdata, argv))
  {
    var cb := Callback(fn, privdata);
    ClassifyMeans(argv);
    NotBoth(argv);
    DeedSnoc(a.hist.deeds, Issued(argv, cb));
    TableIssued(a.channels, a.hist.deeds, argv, cb, false);
    TableIssued(a.patterns, a.hist.deeds, argv, cb, true);
  }

  lemma OutputCommanded(a: Snapshot, fn: Option<nat>, privdata: nat, argv: CommandLine)
    requires OutputMeans(a)
    ensures OutputMeans(Commanded(a, fn, privdata, argv))
  {
    if Accepts(a.flags, argv) {
      DeedSnoc(a.hist.deeds, Issued(argv, Callback(fn, privdata)));
      Assoc(a.hist.sent, a.obuf, Encode(argv));
    }
  }

  lemma BookedCommanded(a: Snapshot, fn: Option<nat>, privdata: nat, argv: CommandLine)
    requires Booked(a) && !Over(a)
    ensures Booked(Commanded(a, fn, privdata, argv))
  {
    OutputCommanded(a, fn, privdata, argv);
    if Accepts(a.flags, argv) {
      ModeCommanded(a, fn, privdata, argv);
    }
  }

  lemma BookedNoted(a: Snapshot, action: Action)
    requires Booked(a) && !Over(a)
    ensures Booked(Noted(a, action)) && !Over(Noted(a, action))
  {
    NotedNotes(a, action);
    if action.Issue? {
      BookedCommanded(a, action.fn, action.privdata, action.argv);
    }
  }

  lemma {:induction false} BookedAllNoted(a: Snapshot, actions: seq<Action>)
    requires Booked(a) && !Over(a)
    ensures Booked(AllNoted(a, actions)) && !Over(AllNoted(a, actions))
  {
    if actions != [] {
      BookedAllNoted(a, actions[..|actions| - 1]);
      BookedNoted(AllNoted(a, actions[..|actions| - 1]), actions[|actions| - 1]);
    }
  }

  lemma BookedCalled(u: User, a: Snapshot, source: Source, cb: Callback, reply: Option<Reply>)
    requires Booked(a) && !Over(a)
    ensures var b := Called(u, a, source, cb, reply); Booked(b) && !Over(b)
  {
    BookedAllNoted(AfterRun(a, source, cb, reply), u.script(a.calls));
  }

  // ------------------------------------------------------------------------
  // Replies that find nobody waiting

  lemma LatestHeard(deeds: seq<Deed>, reply: Reply, pattern: bool, name: bytes)
    ensures Latest(deeds + [Heard(reply)], pattern, name)
         == if TakesOff(reply, pattern, name) then None else Latest(deeds, pattern, name)
  {
    DeedSnoc(deeds, Heard(reply));
  }

  /** A table from which the name is gone if the reply takes it off. */
  lemma TableHeard(m: map<bytes, Callback>, deeds: seq<Deed>, reply: Reply, pattern: bool)
    requires TableMeans(m, deeds, pattern)
    ensures var gone := if IsMessage(reply) && TakesOff(reply, pattern, reply.items[1].text)
                        then {reply.items[1].text} else {};
      TableMeans(m - gone, deeds + [Heard(reply)], pattern)
  {
    var gone := if IsMessage(reply) && TakesOff(reply, pattern, reply.items[1].text)
                then {reply.items[1].text} else {};
    forall name
      ensures Latest(deeds + [Heard(reply)], pattern, name)
           == if name in m - gone then Some((m - gone)[name]) else None
    {
      LatestHeard(deeds, reply, pattern, name);
    }
  }

  /** The message takes off a name that is in its table. */
  predicate Removes(a: Snapshot, reply: Reply) {
    IsMessage(reply) && Unsubscribed(reply) && reply.items[1].text in TableOf(a, reply)
  }

  lemma ModeHeard(a: Snapshot, reply: Reply)
    requires ModeMeans(a) && Subscribed in a.flags
    ensures InMode(a.hist.deeds + [Heard(reply)])
       <==> !(Removes(a, reply) && Counts(reply) && reply.items[2].value == 0)
  {
    DeedSnoc(a.hist.deeds, Heard(reply));
    if IsMessage(reply) {
      MessageMeans(reply, true);
      MessageMeans(reply, false);
      var pattern, name := OfPattern(reply), reply.items[1].text;
      if Removes(a, reply) && Counts(reply) && reply.items[2].value == 0 {
        assert TakesOff(reply, pattern, name) && Latest(a.hist.deeds, pattern, name).Some?;
      }
    }
  }

  /** Names that are not there cannot be taken out. */
  lemma NothingGone(m: map<bytes, Callback>, name: bytes)
    requires name !in m
    ensures m - {name} == m
  {
  }

  lemma TablesHeard(a: Snapshot, reply: Reply)
    requires ModeMeans(a)
    ensures var b := if Removes(a, reply) then Forgotten(a, reply) else a;
      && TableMeans(b.channels, a.hist.deeds + [Heard(reply)], false)
      && TableMeans(b.patterns, a.hist.deeds + [Heard(reply)], true)
  {
    TableHeard(a.channels, a.hist.deeds, reply, false);
    TableHeard(a.patterns, a.hist.deeds, reply, true);
    assert a.channels - {} == a.channels && a.patterns - {} == a.patterns;
    if IsMessage(reply) {
      MessageMeans(reply, true);
      MessageMeans(reply, false);
      var name := reply.items[1].text;
      if name !in TableOf(a, reply) {
        NothingGone(TableOf(a, reply), name);
      }
    }
  }

  lemma BookedAddressed(a: Snapshot, reply: Reply, cb: Callback)
    requires Booked(a) && !Over(a) && Subscribed in a.flags
    ensures Booked(Addressed(a.(hist := Straying(a.hist, reply)), reply, cb).after)
  {
    hide Output, TableMeans, InMode, Latest;
    DeedSnoc(a.hist.deeds, Heard(reply));
    ModeHeard(a, reply);
    TablesHeard(a, reply);
    assert Output(a.hist.deeds) + [] == Output(a.hist.deeds);
  }

  lemma OutputHeard(a: Snapshot, reply: Reply)
    requires OutputMeans(a)
    ensures OutputMeans(a.(hist := Straying(a.hist, reply)))
  {
    DeedSnoc(a.hist.deeds, Heard(reply));
    assert Output(a.hist.deeds) + [] == Output(a.hist.deeds);
  }

  lemma BookedMessage(u: User, a: Snapshot, cb: Callback, reply: Reply)
    requires Booked(a) && !Over(a) && Subscribed in a.flags
    ensures Booked(TakenMessage(u, a.(hist := Straying(a.hist, reply)), cb, reply).after.state)
  {
    hide Called, ModeMeans;
    BookedAddressed(a, reply, cb);
    var d := Addressed(a.(hist := Straying(a.hist, reply)), reply, cb);
    if d.ok {
      BookedCalled(u, d.after, d.source, d.cb, Some(reply));
    }
  }

  lemma BookedServed(u: User, a: Snapshot, reply: Option<Reply>)
    requires Booked(a) && !Over(a) && a.queue != []
    ensures Booked(ServedFirst(u, a, reply))
  {
    var t := a.queue[0];
    BookedCalled(u, a.(queue := a.queue[1..], hist := Serving(a.hist, t, reply)), Regular, t, reply);
  }

  /** A state that still counts as alive, or whose output alone is to be seen. */
  ghost predicate BookedSoFar(p: Progress) {
    if Ongoing(p) then Booked(p.state) else OutputMeans(p.state)
  }

  lemma BookedTaken(u: User, a: Snapshot, cb: Callback, reply: Reply)
    requires Booked(a) && !Over(a)
    ensures BookedSoFar(Taken(u, a, cb, reply).after)
  {
    hide Called, ModeMeans, TakenMessage;
    if a.queue != [] {
      BookedServed(u, a, Some(reply));
    } else if Subscribed in a.flags && !reply.Failure? {
      BookedMessage(u, a, cb, reply);
    } else {
      OutputHeard(a, reply);
    }
  }

  /** In every state between the replies of a read the log says what the context holds. */
  lemma {:induction false} BookedTakenAll(u: User, a: Snapshot, replies: seq<Reply>)
    requires Good(a) && Booked(a) && !Over(a)
    ensures BookedSoFar(TakenAll(u, a, replies).after)
  {
    if replies != [] {
      var front := replies[..|replies| - 1];
      BookedTakenAll(u, a, front);
      TakenAllFit(u, a, front);
      var t := TakenAll(u, a, front);
      if Ongoing(t.after) {
        BookedTaken(u, t.after.state, t.cb, replies[|replies| - 1]);
      }
    }
  }

  lemma BookedFinished(p: Progress, broken: bool)
    requires BookedSoFar(p)
    ensures BookedSoFar(Finished(p, broken))
  {
  }

  // ------------------------------------------------------------------------
  // What the laws of the log mean for a reply

  /** A message for a name, when no command waits, runs the callback of the latest subscription
      to the name that has not been taken off since, and no other. */
  lemma MessageToLatest(u: User, a: Snapshot, cb: Callback, reply: Reply, pattern: bool, name: bytes)
    requires Booked(a) && !Over(a) && a.queue == [] && InMode(a.hist.deeds)
    requires MessageFor(reply, pattern, name) && !TakesOff(reply, pattern, name)
    ensures Latest(a.hist.deeds, pattern, name).Some? ==>
      var t := Latest(a.hist.deeds, pattern, name).value;
      var s := Taken(u, a, cb, reply).after.state;
      !s.aborted && s.hist.trace == a.hist.trace + (if t.fn.Some? then [Ran(Message, t, Some(reply))] else [])
  {
    MessageMeans(reply, true);
    MessageMeans(reply, false);
    var s := a.(hist := Straying(a.hist, reply));
    var d := Addressed(s, reply, cb);
    CalledNotes(u, d.after, d.source, d.cb, Some(reply));
  }

  /** A message that a subscribed name has been taken off runs the same callback, once more; it
      has to say how many names are left. */
  lemma TakenOffTells(u: User, a: Snapshot, cb: Callback, reply: Reply, pattern: bool, name: bytes)
    requires Booked(a) && !Over(a) && a.queue == [] && InMode(a.hist.deeds)
    requires TakesOff(reply, pattern, name) && Latest(a.hist.deeds, pattern, name).Some?
    ensures var t, s := Latest(a.hist.deeds, pattern, name).value, Taken(u, a, cb, reply).after.state;
      if |reply.items| > 2 && reply.items[2].Integer? then
        !s.aborted && s.hist.trace == a.hist.trace + (if t.fn.Some? then [Ran(Message, t, Some(reply))] else [])
      else s.aborted && s.hist.trace == a.hist.trace
  {
    MessageMeans(reply, pattern);
    var s := a.(hist := Straying(a.hist, reply));
    var d := Addressed(s, reply, cb);
    CalledNotes(u, d.after, d.source, d.cb, Some(reply));
  }

  // ------------------------------------------------------------------------
  // What a command does

  /** An ordinary command: its callback joins the queue and the log of accepted ones, or those
      put aside if the context is in the mode for messages, and its bytes join the output.
      Nothing else changes. */
  lemma OrdinaryCommand(a: Snapshot, fn: Option<nat>, privdata: nat, argv: CommandLine)
    requires Ordinary(argv) && Disconnecting !in a.flags && Freeing !in a.flags
    ensures Accepts(a.flags, argv)
    ensures var cb, h := Callback(fn, privdata), a.hist;
      var b := a.(obuf := a.obuf + Encode(argv), hist := h.(deeds := h.deeds + [Issued(argv, cb)]));
      Commanded(a, fn, privdata, argv)
        == if Subscribed in a.flags then b.(late := a.late + [cb], hist := b.hist.(aside := h.aside + [cb]))
           else b.(queue := a.queue + [cb], hist := b.hist.(accepted := h.accepted + [cb]))
  {
    ClassifyMeans(argv);
  }

  /** A subscription: every name listed is its callback's, in the table of its kind; other
      names, and the other table, stay as they are. */
  lemma SubscribeCommand(a: Snapshot, fn: Option<nat>, privdata: nat, argv: CommandLine, pattern: bool)
    requires Subscribes(argv, pattern) && Disconnecting !in a.flags && Freeing !in a.flags
    ensures Accepts(a.flags, argv)
    ensures var cb, b := Callback(fn, privdata), Commanded(a, fn, privdata, argv);
      var m, m' := if pattern then a.patterns else a.channels, if pattern then b.patterns else b.channels;
      && b == a.(obuf := a.obuf + Encode(argv), flags := a.flags + {Subscribed},
                 hist := a.hist.(deeds := a.hist.deeds + [Issued(argv, cb)]),
                 channels := b.channels, patterns := b.patterns)
      && (if pattern then b.channels == a.channels else b.patterns == a.patterns)
      && m'.Keys == m.Keys + (set n | n in argv[1..])
      && forall n :: n in m' ==> m'[n] == if n in argv[1..] then cb else m[n]
  {
    ClassifyMeans(argv);
  }

  /** Unsubscribing sends the command, and registers or queues nothing. */
  lemma UnsubscribeCommand(a: Snapshot, fn: Option<nat>, privdata: nat, argv: CommandLine)
    requires Unsubscribes(argv) && Disconnecting !in a.flags && Freeing !in a.flags && Subscribed in a.flags
    ensures Accepts(a.flags, argv)
    ensures Commanded(a, fn, privdata, argv)
      == a.(obuf := a.obuf + Encode(argv),
            hist := a.hist.(deeds := a.hist.deeds + [Issued(argv, Callback(fn, privdata))]))
  {
    ClassifyMeans(argv);
  }

  /** A command is refused exactly while the context is about to go, or if it unsubscribes from
      nothing; then nothing at all changes. */
  lemma RefusedCommand(a: Snapshot, fn: Option<nat>, privdata: nat, argv: CommandLine)
    ensures !Accepts(a.flags, argv)
       <==> Disconnecting in a.flags || Freeing in a.flags || (Unsubscribes(argv) && Subscribed !in a.flags)
    ensures !Accepts(a.flags, argv) ==> Commanded(a, fn, privdata, argv) == a
  {
    ClassifyMeans(argv);
  }

  /** The lists, the tables and the output after any command. */
  lemma CommandEffect(a: Snapshot, fn: Option<nat>, privdata: nat, argv: CommandLine)
    ensures var ok, b, cb := Accepts(a.flags, argv), Commanded(a, fn, privdata, argv), Callback(fn, privdata);
      && ok == !(Disconnecting in a.flags || Freeing in a.flags || (Unsubscribes(argv) && Subscribed !in a.flags))
      && (if ok then b.obuf == a.obuf + Encode(argv) else b == a)
      && (ok && Ordinary(argv) ==> b.channels == a.channels && b.patterns == a.patterns)
      && (ok && Ordinary(argv) && Subscribed !in a.flags ==>
           b.queue == a.queue + [cb] && b.late == a.late && b.hist.accepted == a.hist.accepted + [cb])
      && (ok && Ordinary(argv) && Subscribed in a.flags ==>
           b.late == a.late + [cb] && b.queue == a.queue && b.hist.aside == a.hist.aside + [cb])
  {
    RefusedCommand(a, fn, privdata, argv);
    if Accepts(a.flags, argv) && Ordinary(argv) {
      OrdinaryCommand(a, fn, privdata, argv);
    }
  }

  lemma MessageTexts(reply: Reply, pattern: bool, name: bytes)
    requires reply.Array? && |reply.items| >= 2 && reply.items[1] == Bulk(name)
    requires reply.items[0] == Bulk(MessageWord(pattern))
    ensures IsMessage(reply) && OfPattern(reply) == pattern && !Unsubscribed(reply)
    ensures MessageFor(reply, pattern, name) && !TakesOff(reply, pattern, name)
  {
    var text := reply.items[0].text;
    assert text[0] == if pattern then 112 else 109;
    assert text[if pattern then 1 else 0] == 109;
    assert Text("p")[0] == 112;
    var word := Text(if pattern then "punsubscribe" else "unsubscribe") + [0];
    var k := if pattern then 1 else 0;
    assert word[k] == 117;
    assert (text + [0])[k] == 109;
    MessageMeans(reply, pattern);
  }

  /** The first message for any name of a subscription runs the callback that came with it. */
  lemma SubscribedThenTold(u: User, a: Snapshot, fn: Option<nat>, privdata: nat, argv: CommandLine, pattern: bool,
                           cb: Callback, name: bytes, items: seq<Reply>)
    requires Subscribes(argv, pattern) && Disconnecting !in a.flags && Freeing !in a.flags
    requires a.queue == [] && fn.Some? && name in argv[1..]
    requires |items| >= 2 && items[1] == Bulk(name)
    requires items[0] == Bulk(MessageWord(pattern))
    ensures var b := Commanded(a, fn, privdata, argv);
      var s := Taken(u, b, cb, Array(items)).after.state;
      s.hist.trace == a.hist.trace + [Ran(Message, Callback(fn, privdata), Some(Array(items)))]
  {
    var b, reply := Commanded(a, fn, privdata, argv), Array(items);
    SubscribeCommand(a, fn, privdata, argv, pattern);
    MessageTexts(reply, pattern, name);
    var d := Addressed(b.(hist := Straying(b.hist, reply)), reply, cb);
    CalledNotes(u, d.after, d.source, d.cb, Some(reply));
  }

  /** The same for any reply of a read, in the state that those before it leave. */
  lemma RoutedInRead(u: User, a: Snapshot, replies: seq<Reply>, n: nat, pattern: bool, name: bytes)
    requires Good(a) && Booked(a) && !Over(a) && n < |replies|
    requires var t := TakenAll(u, a, replies[..n]);
      Ongoing(t.after) && t.after.state.queue == [] && InMode(t.after.state.hist.deeds)
    requires MessageFor(replies[n], pattern, name) && !TakesOff(replies[n], pattern, name)
    ensures var s, s' := TakenAll(u, a, replies[..n]).after.state, TakenAll(u, a, replies[..n + 1]).after.state;
      Latest(s.hist.deeds, pattern, name).Some? ==>
        var t := Latest(s.hist.deeds, pattern, name).value;
        s'.hist.trace == s.hist.trace + (if t.fn.Some? then [Ran(Message, t, Some(replies[n]))] else [])
  {
    hide Good, Booked, Taken, Latest, InMode, MessageFor, TakesOff;
    var t := TakenAll(u, a, replies[..n]);
    BookedTakenAll(u, a, replies[..n]);
    TakenAllFit(u, a, replies[..n]);
    assert replies[..n + 1][..n] == replies[..n];
    MessageToLatest(u, t.after.state, t.cb, replies[n], pattern, name);
  }

  // ------------------------------------------------------------------------
  // Replies to waiting commands

  /** The callbacks run with the replies of their places. */
  function Answers(cbs: seq<Callback>, replies: seq<Reply>): seq<Event>
    requires |cbs| == |replies|
  {
    if cbs == [] then []
    else
      var k := |cbs| - 1;
      Answers(cbs[..k], replies[..k])
      + (if cbs[k].fn.Some? then [Ran(Regular, cbs[k], Some(replies[k]))] else [])
  }

  /** In these calls nobody asks to disconnect or to free. */
  predicate NobodyEnds(u: User, m: nat, n: nat) {
    forall i :: m <= i < n ==> Disconnect !in u.script(i) && Free !in u.script(i)
  }

  lemma {:induction false} NoWishes(u: User, m: nat, n: nat)
    requires NobodyEnds(u, m, n)
    ensures Wishes(u, m, n) == {}
    decreases n
  {
    if m < n {
      NoWishes(u, m, n - 1);
    }
  }

  /** One reply for the oldest command. */
  lemma AnswerOne(u: User, a: Snapshot, cb: Callback, reply: Reply)
    requires a.queue != [] && Freeing !in a.flags && NobodyEnds(u, a.calls, a.calls + 1)
    ensures var t := a.queue[0];
      var p := Taken(u, a, cb, reply).after;
      && p.Going? && a.queue[1..] <= p.state.queue && a.calls <= p.state.calls <= a.calls + 1
      && p.state.flags <= a.flags + {Subscribed} && p.state.freed == a.freed && p.state.aborted == a.aborted
      && p.state.hist.strays == a.hist.strays
      && p.state.hist.trace == a.hist.trace + (if t.fn.Some? then [Ran(Regular, t, Some(reply))] else [])
  {
    var t := a.queue[0];
    NoWishes(u, a.calls, CallsAfter(a, t));
    CalledNotes(u, a.(queue := a.queue[1..], hist := Serving(a.hist, t, Some(reply))), Regular, t, Some(reply));
  }

  /** As many commands wait as replies come: each gets the reply of its place, and the context
      goes on. */
  lemma {:induction false} AnswerAll(u: User, a: Snapshot, replies: seq<Reply>)
    requires !Over(a) && Freeing !in a.flags && |replies| <= |a.queue|
    requires NobodyEnds(u, a.calls, a.calls + |replies|)
    ensures var p, k := TakenAll(u, a, replies).after, |replies|;
      && Ongoing(p) && !p.state.freed && a.queue[k..] <= p.state.queue && a.calls <= p.state.calls <= a.calls + k
      && p.state.flags <= a.flags + {Subscribed} && p.state.hist.strays == a.hist.strays
      && p.state.hist.trace == a.hist.trace + Answers(a.queue[..k], replies)
  {
    if replies != [] {
      var k := |replies| - 1;
      AnswerAll(u, a, replies[..k]);
      var t := TakenAll(u, a, replies[..k]);
      var s := t.after.state;
      assert s.queue[0] == a.queue[k..][0] == a.queue[k];
      AnswerOne(u, s, t.cb, replies[k]);
      assert a.queue[..k + 1][..k] == a.queue[..k];
      assert a.queue[k..][1..] == a.queue[k + 1..];
    }
  }

  // ------------------------------------------------------------------------
  // What a callback asks for

  /** A callback that asks to free the context, after its reply: it is the end. One that asks to
      disconnect: no more commands are accepted, and the context goes on. */
  lemma CallbackEnds(u: User, a: Snapshot, cb: Callback, reply: Reply)
    requires a.queue != [] && a.queue[0].fn.Some?
    ensures Free in u.script(a.calls) ==> Taken(u, a, cb, reply).after.Ending?
    ensures Disconnect in u.script(a.calls) ==> Disconnecting in Taken(u, a, cb, reply).after.state.flags
    ensures Free !in u.script(a.calls) && Freeing !in a.flags ==> Taken(u, a, cb, reply).after.Going?
  {
    var t := a.queue[0];
    CalledNotes(u, a.(queue := a.queue[1..], hist := Serving(a.hist, t, Some(reply))), Regular, t, Some(reply));
    assert Wishes(u, a.calls, a.calls + 1) == {} + Asked(u.script(a.calls));
  }

  /** A callback that sends an ordinary command: that waits behind those that waited, and its
      bytes join the output. */
  lemma CallbackCommands(u: User, a: Snapshot, cb: Callback, reply: Reply,
                         fn: Option<nat>, privdata: nat, argv: CommandLine)
    requires a.queue != [] && a.queue[0].fn.Some? && u.script(a.calls) == [Issue(fn, privdata, argv)]
    requires Ordinary(argv)
    requires Disconnecting !in a.flags && Freeing !in a.flags && Subscribed !in a.flags
    ensures var p := Taken(u, a, cb, reply).after;
      && p.Going? && p.state.queue == a.queue[1..] + [Callback(fn, privdata)]
      && p.state.obuf == a.obuf + Encode(argv)
      && p.state.hist.accepted == a.hist.accepted + [Callback(fn, privdata)]
  {
    var t := a.queue[0];
    var b := AfterRun(a.(queue := a.queue[1..], hist := Serving(a.hist, t, Some(reply))), Regular, t, Some(reply));
    var actions := u.script(a.calls);
    assert actions[..0] == [];
    assert AllNoted(b, []) == b;
    assert AllNoted(b, actions) == Noted(b, actions[0]);
    OrdinaryCommand(b, fn, privdata, argv);
  }
}
