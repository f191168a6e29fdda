/** The asynchronous context as a machine on values: what commands, callbacks, replies and
    the teardown make of its state. */
module Machine {
  import opened Bytes
  import opened Resp
  import opened Arguments
  import opened Command
  import opened Dict
  import opened History
  import opened PubSub

  const ERR_IO := 1
  const ERR_OTHER := 2
  const ERR_EOF := 3
  const ERR_PROTOCOL := 4

  datatype Flag = Connected | Disconnecting | Freeing | InCallback | Subscribed

  lemma ShortestCommand()
    ensures |Encode([[]])| < INT_LIMIT
  {
    var none: seq<bytes> := [];
    assert [[]][..0] == none;
    assert |Header(1)| == 4 && |BulkText([])| == 6;
    assert BulkTexts([[]]) == BulkTexts([]) + BulkText([]);
  }

  /** The arguments of a command, whose size on the wire is an `int`; monitor mode is not
      part of this model. */
  type CommandLine = argv: seq<bytes> | argv != [] && |Encode(argv)| < INT_LIMIT && !Monitors(argv)
    witness (ShortestCommand(); [[]])

  /** What a user callback, or the user, may ask of the context. */
  datatype Action = Issue(fn: Option<nat>, privdata: nat, argv: CommandLine) | Disconnect | Free

  /** The user's side: the n-th call of a reply callback asks for script(n); a connect and a
      disconnect callback may be set. */
  datatype User = User(script: nat -> seq<Action>, onConnect: bool, onDisconnect: bool)

  /** What there is to see of a context; `calls` counts the calls of reply callbacks. */
  datatype Snapshot = Snapshot(
    hist: History, flags: set<Flag>, err: int, cerr: int, obuf: bytes,
    queue: seq<Callback>, late: seq<Callback>, channels: map<bytes, Callback>, patterns: map<bytes, Callback>,
    calls: nat, freed: bool, aborted: bool)

  /** Nothing happens to the context any more. */
  predicate Over(s: Snapshot) {
    s.freed || s.aborted
  }

  predicate Refuses(flags: set<Flag>) {
    Disconnecting in flags || Freeing in flags
  }

  // ------------------------------------------------------------------------
  // Commands and what callbacks ask for

  /** No commands are accepted while the context is about to go, and unsubscribing only
      while subscribed. */
  predicate Accepts(flags: set<Flag>, argv: CommandLine) {
    !Refuses(flags) && (Classify(argv) == Unsubscribe ==> Subscribed in flags)
  }

  /** The callback of a command of the given kind is registered for the names, queued, or put
      aside while subscribed. */
  function Dispatched(a: Snapshot, kind: CmdKind, names: seq<bytes>, cb: Callback): Snapshot {
    match kind
    case Subscribe(true) => a.(flags := a.flags + {Subscribed}, patterns := Registered(a.patterns, names, cb))
    case Subscribe(false) => a.(flags := a.flags + {Subscribed}, channels := Registered(a.channels, names, cb))
    case Unsubscribe => a
    case Other =>
      if Subscribed in a.flags then a.(late := a.late + [cb], hist := a.hist.(aside := a.hist.aside + [cb]))
      else a.(queue := a.queue + [cb], hist := a.hist.(accepted := a.hist.accepted + [cb]))
  }

  /** A command that is accepted: its callback is dispatched, and its bytes are to be sent. */
  function Commanded(a: Snapshot, fn: Option<nat>, privdata: nat, argv: CommandLine): Snapshot {
    if !Accepts(a.flags, argv) then a
    else
      var cb := Callback(fn, privdata);
      var b := Dispatched(a, Classify(argv), argv[1..], cb);
      b.(obuf := a.obuf + Encode(argv), hist := b.hist.(deeds := b.hist.deeds + [Issued(argv, cb)]))
  }

  /** What a running callback asks for: disconnecting and freeing are only noted. */
  function Noted(a: Snapshot, action: Action): Snapshot {
    match action
    case Issue(fn, privdata, argv) => Commanded(a, fn, privdata, argv)
    case Disconnect => a.(flags := a.flags + {Disconnecting})
    case Free => a.(flags := a.flags + {Freeing})
  }

  function AllNoted(a: Snapshot, actions: seq<Action>): Snapshot {
    if actions == [] then a
    else Noted(AllNoted(a, actions[..|actions| - 1]), actions[|actions| - 1])
  }

  /** Whether somebody asks to disconnect or to free. */
  function Asked(actions: seq<Action>): set<Flag> {
    (if Disconnect in actions then {Disconnecting} else {}) + (if Free in actions then {Freeing} else {})
  }

  lemma AskedSnoc(actions: seq<Action>, last: Action)
    ensures Asked(actions + [last]) == Asked(actions) + Asked([last])
  {
  }

  /** What the calls from the m-th up to the n-th ask for. */
  function Wishes(u: User, m: nat, n: nat): (w: set<Flag>)
    ensures w <= {Disconnecting, Freeing}
  {
    if n <= m then {} else Wishes(u, m, n - 1) + Asked(u.script(n - 1))
  }

  lemma {:induction false} WishesJoin(u: User, m: nat, k: nat, n: nat)
    requires m <= k <= n
    ensures Wishes(u, m, n) == Wishes(u, m, k) + Wishes(u, k, n)
    decreases n
  {
    if k < n {
      WishesJoin(u, m, k, n - 1);
    }
  }

  /** What was added to a list is in its log. */
  predicate Added(log: seq<Callback>, list: seq<Callback>, log': seq<Callback>, list': seq<Callback>) {
    list <= list' && log' == log + list'[|list|..]
  }

  /** Callbacks were added at the end of the lists and registered, and what was asked for is
      noted; while commands are refused there is nothing else. */
  predicate Noting(a: Snapshot, asked: set<Flag>, b: Snapshot) {
    && b == a.(hist := a.hist.(accepted := b.hist.accepted, aside := b.hist.aside, deeds := b.hist.deeds),
               flags := b.flags, obuf := b.obuf, queue := b.queue, late := b.late,
               channels := b.channels, patterns := b.patterns)
    && a.hist.deeds <= b.hist.deeds
    && Added(a.hist.accepted, a.queue, b.hist.accepted, b.queue)
    && Added(a.hist.aside, a.late, b.hist.aside, b.late)
    && a.flags + asked <= b.flags <= a.flags + asked + {Subscribed}
    && (Refuses(a.flags) ==> b == a.(flags := a.flags + asked))
  }

  lemma AddedJoin(log: seq<Callback>, list: seq<Callback>, log': seq<Callback>, list': seq<Callback>,
                  log'': seq<Callback>, list'': seq<Callback>)
    requires Added(log, list, log', list') && Added(log', list', log'', list'')
    ensures Added(log, list, log'', list'')
  {
    assert list''[|list|..] == list'[|list|..] + list''[|list'|..];
  }

  lemma NotingJoin(a: Snapshot, x: set<Flag>, b: Snapshot, y: set<Flag>, c: Snapshot)
    requires Noting(a, x, b) && Noting(b, y, c)
    ensures Noting(a, x + y, c)
  {
    AddedJoin(a.hist.accepted, a.queue, b.hist.accepted, b.queue, c.hist.accepted, c.queue);
    AddedJoin(a.hist.aside, a.late, b.hist.aside, b.late, c.hist.aside, c.late);
    assert a.flags + x + y == a.flags + (x + y);
  }

  lemma NotingNone(a: Snapshot)
    ensures Noting(a, {}, a)
  {
    assert a.flags + {} == a.flags;
  }

  lemma AddedOne(log: seq<Callback>, list: seq<Callback>, cb: Callback)
    ensures Added(log, list, log, list) && Added(log, list, log + [cb], list + [cb])
  {
    assert list[|list|..] == [] && (list + [cb])[|list|..] == [cb];
  }

  lemma DispatchedNotes(a: Snapshot, kind: CmdKind, names: seq<bytes>, cb: Callback)
    requires !Refuses(a.flags)
    ensures Noting(a, {}, Dispatched(a, kind, names, cb))
  {
    hide Added;
    AddedOne(a.hist.accepted, a.queue, cb);
    AddedOne(a.hist.aside, a.late, cb);
  }

  /** A command adds its callback at the end of a list or registers it, or is refused. */
  lemma CommandedNotes(a: Snapshot, fn: Option<nat>, privdata: nat, argv: CommandLine)
    ensures Noting(a, {}, Commanded(a, fn, privdata, argv))
  {
    if Accepts(a.flags, argv) {
      DispatchedNotes(a, Classify(argv), argv[1..], Callback(fn, privdata));
    } else {
      NotingNone(a);
    }
  }

  lemma NotedNotes(a: Snapshot, action: Action)
    ensures Noting(a, Asked([action]), Noted(a, action))
  {
    match action {
      case Issue(fn, privdata, argv) => CommandedNotes(a, fn, privdata, argv);
      case _ => assert a.queue[|a.queue|..] == [] && a.late[|a.late|..] == [];
    }
  }

  /** Whatever a callback asks for, callbacks only join the lists at their ends. */
  lemma {:induction false} AllNotedNotes(a: Snapshot, actions: seq<Action>)
    ensures Noting(a, Asked(actions), AllNoted(a, actions))
  {
    hide Noted, Noting;
    if actions == [] {
      NotingNone(a);
      assert Asked(actions) == {};
    } else {
      var front, last := actions[..|actions| - 1], actions[|actions| - 1];
      AllNotedNotes(a, front);
      NotedNotes(AllNoted(a, front), last);
      NotingJoin(a, Asked(front), AllNoted(a, front), Asked([last]), AllNoted(a, actions));
      AskedSnoc(front, last);
      assert actions == front + [last];
    }
  }

  /** The flag that a callback runs does not matter for what it asks for. */
  function Within(a: Snapshot): Snapshot {
    a.(flags := a.flags + {InCallback})
  }

  lemma WithinBack(a: Snapshot)
    requires InCallback !in a.flags
    ensures Within(a).(flags := Within(a).flags - {InCallback}) == a
  {
    assert a.flags + {InCallback} - {InCallback} == a.flags;
  }

  lemma DispatchedWithin(a: Snapshot, kind: CmdKind, names: seq<bytes>, cb: Callback)
    ensures Dispatched(Within(a), kind, names, cb) == Within(Dispatched(a, kind, names, cb))
  {
    if kind.Subscribe? {
      assert a.flags + {InCallback} + {Subscribed} == a.flags + {Subscribed} + {InCallback};
    }
  }

  lemma NotedWithin(a: Snapshot, action: Action)
    ensures Noted(Within(a), action) == Within(Noted(a, action))
  {
    match action {
      case Issue(fn, privdata, argv) => DispatchedWithin(a, Classify(argv), argv[1..], Callback(fn, privdata));
      case Disconnect => assert a.flags + {InCallback} + {Disconnecting} == a.flags + {Disconnecting} + {InCallback};
      case Free => assert a.flags + {InCallback} + {Freeing} == a.flags + {Freeing} + {InCallback};
    }
  }

  lemma {:induction false} AllNotedWithin(a: Snapshot, actions: seq<Action>)
    requires InCallback !in a.flags
    ensures AllNoted(Within(a), actions) == Within(AllNoted(a, actions))
    ensures InCallback !in AllNoted(a, actions).flags
  {
    hide Noted;
    AllNotedNotes(a, actions);
    if actions != [] {
      var front := actions[..|actions| - 1];
      AllNotedWithin(a, front);
      NotedWithin(AllNoted(a, front), actions[|actions| - 1]);
    }
  }

  // ------------------------------------------------------------------------
  // Running callbacks

  function CallsAfter(a: Snapshot, cb: Callback): nat {
    a.calls + (if cb.fn.Some? then 1 else 0)
  }

  /** The callback has run, but nothing has been done yet about what it asks for. */
  function AfterRun(a: Snapshot, source: Source, cb: Callback, reply: Option<Reply>): Snapshot {
    a.(hist := Running(a.hist, source, cb, reply), calls := CallsAfter(a, cb))
  }

  /** The callback has run, with all that it asks for. */
  function Called(u: User, a: Snapshot, source: Source, cb: Callback, reply: Option<Reply>): Snapshot {
    var b := AfterRun(a, source, cb, reply);
    if cb.fn.None? then b else AllNoted(b, u.script(a.calls))
  }

  lemma CalledNotes(u: User, a: Snapshot, source: Source, cb: Callback, reply: Option<Reply>)
    ensures var b := Called(u, a, source, cb, reply);
      Noting(AfterRun(a, source, cb, reply), Wishes(u, a.calls, CallsAfter(a, cb)), b) && b.calls == CallsAfter(a, cb)
  {
    var b := AfterRun(a, source, cb, reply);
    if cb.fn.None? {
      NotingNone(b);
    } else {
      AllNotedNotes(b, u.script(a.calls));
      assert Wishes(u, a.calls, a.calls + 1) == {} + Asked(u.script(a.calls));
    }
  }

  /** The oldest waiting callback is served, with a reply or, at the teardown, with none. */
  function ServedFirst(u: User, a: Snapshot, reply: Option<Reply>): Snapshot
    requires a.queue != []
  {
    var t := a.queue[0];
    Called(u, a.(queue := a.queue[1..], hist := Serving(a.hist, t, reply)), Regular, t, reply)
  }

  /** The oldest callback that was put aside is served. */
  function ServedAside(u: User, a: Snapshot, reply: Option<Reply>): Snapshot
    requires a.late != []
  {
    var t := a.late[0];
    Called(u, a.(late := a.late[1..], hist := Aside(a.hist, t, reply)), Invalid, t, reply)
  }

  // ------------------------------------------------------------------------
  // Ending

  /** A living context, or one at its end before anything is torn down. */
  datatype Progress = Going(state: Snapshot) | Ending(state: Snapshot)

  predicate Ongoing(p: Progress) {
    p.Going? && !p.state.aborted
  }

  /** The connection is given up: its error, if there is one, is that of the context, and no
      more commands are accepted. */
  function Hung(s: Snapshot): Snapshot {
    s.(err := s.cerr, flags := if s.cerr == 0 then s.flags else s.flags + {Disconnecting})
  }

  function Failing(s: Snapshot, error: int): Progress {
    Ending(Hung(s.(cerr := error)))
  }

  /** Callbacks have run without a reply while no commands were accepted: what waited may
      have been served, and what they asked for is noted. */
  predicate Drained(u: User, a: Snapshot, b: Snapshot) {
    && b == a.(hist := a.hist.(served := b.hist.served, asideServed := b.hist.asideServed, trace := b.hist.trace),
               flags := a.flags + Wishes(u, a.calls, b.calls), calls := b.calls, queue := b.queue, late := b.late)
    && a.hist.served <= b.hist.served && a.hist.asideServed <= b.hist.asideServed && a.hist.trace <= b.hist.trace
    && a.calls <= b.calls && b.calls - a.calls == |b.hist.trace| - |a.hist.trace|
  }

  lemma DrainedJoin(u: User, a: Snapshot, b: Snapshot, c: Snapshot)
    requires Drained(u, a, b) && Drained(u, b, c)
    ensures Drained(u, a, c)
  {
    WishesJoin(u, a.calls, b.calls, c.calls);
    assert a.flags + Wishes(u, a.calls, b.calls) + Wishes(u, b.calls, c.calls)
        == a.flags + Wishes(u, a.calls, c.calls);
  }

  lemma DrainedNone(u: User, a: Snapshot)
    ensures Drained(u, a, a)
  {
    assert a.flags + {} == a.flags;
  }

  /** While commands are refused a callback can only ask to disconnect or to free. */
  lemma CalledRefused(u: User, a: Snapshot, source: Source, cb: Callback, reply: Option<Reply>)
    requires Refuses(a.flags)
    ensures var b := Called(u, a, source, cb, reply);
      && b == AfterRun(a, source, cb, reply).(flags := a.flags + Wishes(u, a.calls, b.calls))
      && b.calls == CallsAfter(a, cb)
  {
    CalledNotes(u, a, source, cb, reply);
  }

  /** The disconnect callback, if it is to be called, and the end. The status is good after a
      free, and otherwise without an error. */
  function Released(u: User, c: Snapshot): Snapshot {
    c.(hist := c.hist.(trace := c.hist.trace
         + Conclusion(u.onDisconnect && Connected in c.flags, Freeing in c.flags || c.err == 0)),
       channels := map[], patterns := map[], freed := true)
  }

  /** The whole teardown: all that was pending has been run without a reply, in order; then
      the disconnect callback was called, if there is one and the connection was up, with the
      status of the disconnect; then the context was freed. */
  ghost predicate Torn(u: User, s: Snapshot, b: Snapshot) {
    exists c ::
      && Drained(u, s, c) && c.queue == [] && c.late == []
      && AllRun(s.hist.trace, s.queue, s.late, s.channels, s.patterns, c.hist.trace)
      && b == Released(u, c)
  }

  ghost predicate Reached(u: User, p: Progress, b: Snapshot) {
    if p.Going? then b == p.state else Torn(u, p.state, b)
  }

  // ------------------------------------------------------------------------
  // Replies

  /** A turn of the loop over the replies, with the callback that it leaves at hand. */
  datatype Turn = Turn(after: Progress, cb: Callback)

  const NOBODY := Callback(None, 0)

  /** Whose reply it is: `ok` says that no assertion fails on the way. */
  datatype Address = Address(after: Snapshot, ok: bool, source: Source, cb: Callback)

  /** A message for a registered name that says it is no longer subscribed takes the name
      off the table, and perhaps ends the mode. */
  function Forgotten(a: Snapshot, reply: Reply): (b: Snapshot)
    requires IsMessage(reply)
    ensures b == a.(flags := b.flags, channels := b.channels, patterns := b.patterns)
    ensures a.flags - {Subscribed} <= b.flags <= a.flags
  {
    if !Unsubscribed(reply) then a
    else
      var name := reply.items[1].text;
      var b := if OfPattern(reply) then a.(patterns := a.patterns - {name}) else a.(channels := a.channels - {name});
      if Counts(reply) && reply.items[2].value == 0 then b.(flags := b.flags - {Subscribed}) else b
  }

  /** Who is registered for the name of a message. */
  function TableOf(a: Snapshot, reply: Reply): map<bytes, Callback>
    requires IsMessage(reply)
  {
    if OfPattern(reply) then a.patterns else a.channels
  }

  /** A reply that finds nobody waiting on a subscribed context: a message goes to the
      callback of its name, and anything else to the oldest callback put aside. Without such
      a callback the one at hand is still there. */
  function Addressed(a: Snapshot, reply: Reply, cb: Callback): Address {
    if !reply.Array? && !reply.Hollow? then
      if a.late == [] then Address(a, true, Stale, cb)
      else Address(a.(late := a.late[1..], hist := Aside(a.hist, a.late[0], Some(reply))), true, Invalid, a.late[0])
    else if !IsMessage(reply) then Address(a, false, Stale, cb)
    else
      var name := reply.items[1].text;
      if name !in TableOf(a, reply) then Address(a, true, Stale, cb)
      else Address(Forgotten(a, reply), Unsubscribed(reply) ==> Counts(reply), Message, TableOf(a, reply)[name])
  }

  /** A callback that asked to free the context has returned. */
  function Returned(s: Snapshot, cb: Callback): Turn {
    Turn(if cb.fn.Some? && Freeing in s.flags then Ending(s) else Going(s), cb)
  }

  function TakenMessage(u: User, a: Snapshot, cb: Callback, reply: Reply): Turn {
    var d := Addressed(a, reply, cb);
    if d.ok then Returned(Called(u, d.after, d.source, d.cb, Some(reply)), d.cb)
    else Turn(Going(d.after.(aborted := true)), d.cb)
  }

  /** A reply that finds nobody waiting: an error reply ends the connection, and otherwise the
      context must be subscribed. */
  function TakenStray(u: User, a: Snapshot, cb: Callback, reply: Reply): Turn {
    var s := a.(hist := Straying(a.hist, reply));
    if reply.Failure? then Turn(Failing(s, ERR_OTHER), cb)
    else if Subscribed !in a.flags then Turn(Going(s.(aborted := true)), cb)
    else TakenMessage(u, s, cb, reply)
  }

  /** A reply goes to the oldest waiting callback, if there is one. */
  function Taken(u: User, a: Snapshot, cb: Callback, reply: Reply): Turn {
    if a.queue == [] then TakenStray(u, a, cb, reply)
    else Returned(ServedFirst(u, a, Some(reply)), a.queue[0])
  }

  /** Replies one after the other, until the context is at its end. */
  function TakenAll(u: User, a: Snapshot, replies: seq<Reply>): Turn {
    if replies == [] then Turn(Going(a), NOBODY)
    else
      var t := TakenAll(u, a, replies[..|replies| - 1]);
      if Ongoing(t.after) then Taken(u, t.after.state, t.cb, replies[|replies| - 1]) else t
  }

  /** Once the context is at its end no more replies are taken. */
  lemma {:induction false} TakenAllStops(u: User, a: Snapshot, replies: seq<Reply>, n: nat)
    requires n <= |replies| && (n == |replies| || !Ongoing(TakenAll(u, a, replies[..n]).after))
    ensures TakenAll(u, a, replies) == TakenAll(u, a, replies[..n])
  {
    if n == |replies| {
      assert replies[..n] == replies;
    } else {
      var front := replies[..|replies| - 1];
      assert front[..n] == replies[..n];
      TakenAllStops(u, a, front, n);
    }
  }

  /** After the replies: an error of the reader, or a disconnect that was asked for and has
      nothing left to send or to wait for, is the end. */
  function Finished(p: Progress, broken: bool): Progress {
    if !Ongoing(p) then p
    else if broken then Failing(p.state, ERR_PROTOCOL)
    else if Disconnecting in p.state.flags && p.state.obuf == [] && p.state.queue == [] then Ending(Hung(p.state))
    else p
  }

  function Processed(u: User, a: Snapshot, replies: seq<Reply>, broken: bool): Progress {
    Finished(TakenAll(u, a, replies).after, broken)
  }

  /** After the replies a context that is still alive comes to its end, or goes on. */
  lemma OnceTaken(u: User, a: Snapshot, replies: seq<Reply>, broken: bool, b: Snapshot, c: Snapshot)
    requires var p := TakenAll(u, a, replies).after; Reached(u, p, b) && (p.Going? ==> !p.state.freed)
    requires if Over(b) then c == b else Reached(u, Finished(Going(b), broken), c)
    ensures Reached(u, Processed(u, a, replies, broken), c)
  {
  }

  // ------------------------------------------------------------------------
  // What always holds

  /** Served then waiting is accepted, runs are what was served, and no callback runs. */
  predicate Steady(s: Snapshot) {
    Sound(s.hist, s.queue, s.late) && InCallback !in s.flags && Live(s.hist.trace) && !s.freed
  }

  /** An error of the context is one of the connection, and such an error stays. */
  predicate ErrorKnown(s: Snapshot) {
    s.err != 0 ==> s.cerr != 0
  }

  /** ... and whoever was served got a reply. */
  predicate Alive(s: Snapshot) {
    Steady(s) && s.hist.answered == |s.hist.served| && ErrorKnown(s)
  }

  /** The context may be torn down. */
  predicate Closable(s: Snapshot) {
    Alive(s) && !s.aborted && Refuses(s.flags)
  }

  /** The state between calls from outside: alive, with no free asked for, or freed with
      nothing left pending. */
  predicate Good(s: Snapshot) {
    if s.freed then
      && Sound(s.hist, s.queue, s.late) && InCallback !in s.flags && ErrorKnown(s)
      && s.queue == [] && s.late == [] && Ended(s.hist.trace)
    else Alive(s) && (s.aborted || Freeing !in s.flags)
  }

  predicate Fit(p: Progress) {
    if p.Going? then Good(p.state) && !p.state.freed else Closable(p.state)
  }

  lemma SteadyNoting(a: Snapshot, asked: set<Flag>, b: Snapshot)
    requires Steady(a) && Noting(a, asked, b) && InCallback !in asked
    ensures Steady(b)
  {
    assert b.queue == a.queue + b.queue[|a.queue|..] && b.late == a.late + b.late[|a.late|..];
  }

  lemma SteadyServed(u: User, a: Snapshot, reply: Option<Reply>)
    requires Steady(a) && a.queue != [] && (reply.Some? ==> a.hist.answered == |a.hist.served|)
    ensures Steady(ServedFirst(u, a, reply))
  {
    var t := a.queue[0];
    var b := a.(queue := a.queue[1..], hist := Serving(a.hist, t, reply));
    assert a.queue == [t] + a.queue[1..];
    SoundServing(a.hist, t, a.queue[1..], a.late, reply);
    LiveRun(a.hist.trace, Regular, t, reply);
    CalledNotes(u, b, Regular, t, reply);
    SteadyNoting(AfterRun(b, Regular, t, reply), Wishes(u, b.calls, CallsAfter(b, t)), ServedFirst(u, a, reply));
  }

  lemma SteadyAside(u: User, a: Snapshot, reply: Option<Reply>)
    requires Steady(a) && a.late != []
    ensures Steady(ServedAside(u, a, reply))
  {
    var t := a.late[0];
    var b := a.(late := a.late[1..], hist := Aside(a.hist, t, reply));
    assert a.late == [t] + a.late[1..];
    SoundAside(a.hist, t, a.queue, a.late[1..], reply);
    LiveRun(a.hist.trace, Invalid, t, reply);
    CalledNotes(u, b, Invalid, t, reply);
    SteadyNoting(AfterRun(b, Invalid, t, reply), Wishes(u, b.calls, CallsAfter(b, t)), ServedAside(u, a, reply));
  }

  lemma SteadyCalled(u: User, a: Snapshot, source: Source, cb: Callback, reply: Option<Reply>)
    requires Steady(a) && source != Regular && source != Invalid
    ensures Steady(Called(u, a, source, cb, reply))
  {
    SoundRunning(a.hist, a.queue, a.late, source, cb, reply);
    LiveRun(a.hist.trace, source, cb, reply);
    CalledNotes(u, a, source, cb, reply);
    var b := Called(u, a, source, cb, reply);
    SteadyNoting(AfterRun(a, source, cb, reply), Wishes(u, a.calls, CallsAfter(a, cb)), b);
  }

  // ------------------------------------------------------------------------
  // The teardown, one callback at a time

  lemma DrainedServed(u: User, a: Snapshot)
    requires Steady(a) && Refuses(a.flags) && a.queue != []
    ensures var b := ServedFirst(u, a, None);
      && Steady(b) && Refuses(b.flags) && Drained(u, a, b) && b.queue == a.queue[1..] && b.late == a.late
      && b.hist.trace == a.hist.trace + RunOf(Regular, a.queue[0], None)
  {
    hide Called, Steady;
    SteadyServed(u, a, None);
    var t := a.queue[0];
    CalledRefused(u, a.(queue := a.queue[1..], hist := Serving(a.hist, t, None)), Regular, t, None);
    assert a.hist.received + [] == a.hist.received;
  }

  lemma DrainedAside(u: User, a: Snapshot)
    requires Steady(a) && Refuses(a.flags) && a.late != []
    ensures var b := ServedAside(u, a, None);
      && Steady(b) && Refuses(b.flags) && Drained(u, a, b) && b.late == a.late[1..] && b.queue == a.queue
      && b.hist.trace == a.hist.trace + RunOf(Invalid, a.late[0], None)
  {
    hide Called, Steady;
    SteadyAside(u, a, None);
    var t := a.late[0];
    CalledRefused(u, a.(late := a.late[1..], hist := Aside(a.hist, t, None)), Invalid, t, None);
  }

  lemma DrainedCalled(u: User, a: Snapshot, cb: Callback)
    requires Steady(a) && Refuses(a.flags)
    ensures var b := Called(u, a, Message, cb, None);
      && Steady(b) && Refuses(b.flags) && Drained(u, a, b) && b.late == a.late && b.queue == a.queue
      && b.hist.trace == a.hist.trace + RunOf(Message, cb, None)
  {
    hide Called, Steady;
    SteadyCalled(u, a, Message, cb, None);
    CalledRefused(u, a, Message, cb, None);
  }

  lemma ReleasedGood(u: User, c: Snapshot)
    requires Steady(c) && ErrorKnown(c) && c.queue == [] && c.late == []
    ensures Good(Released(u, c))
  {
    Concluded(c.hist.trace, u.onDisconnect && Connected in c.flags, Freeing in c.flags || c.err == 0);
  }

  // ------------------------------------------------------------------------
  // What every turn of the loop over the replies keeps

  lemma HungClosable(s: Snapshot)
    requires Steady(s) && s.hist.answered == |s.hist.served| && !s.aborted && (s.cerr == 0 ==> Refuses(s.flags))
    ensures Closable(Hung(s))
  {
  }

  lemma CalledFit(u: User, a: Snapshot, b: Snapshot, source: Source, cb: Callback, reply: Option<Reply>)
    requires b == Called(u, a, source, cb, reply) && Alive(b) && !b.aborted && Freeing !in a.flags
    ensures Fit(Returned(b, cb).after)
  {
    CalledNotes(u, a, source, cb, reply);
  }

  lemma MessageFit(u: User, a: Snapshot, cb: Callback, reply: Reply)
    requires Alive(a) && !a.aborted && Freeing !in a.flags
    ensures Fit(TakenMessage(u, a, cb, reply).after)
  {
    hide Called, Sound, Live;
    var d := Addressed(a, reply, cb);
    if d.ok {
      CalledNotes(u, d.after, d.source, d.cb, Some(reply));
      if d.source == Invalid {
        SteadyAside(u, a, Some(reply));
      } else {
        SteadyCalled(u, d.after, d.source, d.cb, Some(reply));
      }
      CalledFit(u, d.after, Called(u, d.after, d.source, d.cb, Some(reply)), d.source, d.cb, Some(reply));
    }
  }

  lemma TakenFit(u: User, a: Snapshot, cb: Callback, reply: Reply)
    requires Good(a) && !Over(a)
    ensures Fit(Taken(u, a, cb, reply).after)
  {
    if a.queue != [] {
      var t := a.queue[0];
      var b := a.(queue := a.queue[1..], hist := Serving(a.hist, t, Some(reply)));
      SteadyServed(u, a, Some(reply));
      CalledNotes(u, b, Regular, t, Some(reply));
      CalledFit(u, b, ServedFirst(u, a, Some(reply)), Regular, t, Some(reply));
    } else {
      SoundStraying(a.hist, a.queue, a.late, reply);
      var s := a.(hist := Straying(a.hist, reply));
      if reply.Failure? {
        HungClosable(s.(cerr := ERR_OTHER));
      } else if Subscribed in a.flags {
        MessageFit(u, s, cb, reply);
      }
    }
  }

  lemma {:induction false} TakenAllFit(u: User, a: Snapshot, replies: seq<Reply>)
    requires Good(a) && !Over(a)
    ensures Fit(TakenAll(u, a, replies).after)
  {
    if replies != [] {
      var t := TakenAll(u, a, replies[..|replies| - 1]);
      TakenAllFit(u, a, replies[..|replies| - 1]);
      if Ongoing(t.after) {
        TakenFit(u, t.after.state, t.cb, replies[|replies| - 1]);
      }
    }
  }

  lemma FinishedFit(p: Progress, broken: bool)
    requires Fit(p)
    ensures Fit(Finished(p, broken))
  {
    if Ongoing(p) {
      if broken {
        HungClosable(p.state.(cerr := ERR_PROTOCOL));
      } else if Disconnecting in p.state.flags {
        HungClosable(p.state);
      }
    }
  }
}
