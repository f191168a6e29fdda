/** What happened to an asynchronous context: the callbacks accepted, those served, the
    replies, and everything that its user saw, in order. */
module History {
  import opened Bytes
  import opened Resp
  import opened Dict

  /** Where a callback came from. A stale one is still there from the previous reply. */
  datatype Source = Regular | Invalid | Message | Stale

  datatype Event =
    | Ran(source: Source, cb: Callback, reply: Option<Reply>)
    | Opened(ok: bool)
    | Closed(ok: bool)
    | Freed

  /** A callback that has left the queue, with the reply it was given. */
  datatype Served = Served(cb: Callback, reply: Option<Reply>)

  /** What settles who is subscribed to what and which bytes are to be sent: a command was
      accepted, or a reply found nobody waiting. */
  datatype Deed = Issued(argv: seq<bytes>, cb: Callback) | Heard(reply: Reply)

  /** `answered` counts those served that got a reply; `strays` are the replies that found
      the queue empty, out of all those received. `aside` are the callbacks of commands that
      were sent while subscribed, `asideServed` those of them that have left their list. For
      every reply that has arrived `arrivals` holds the number of commands that had been
      accepted by then. `deeds` are all commands accepted and all strays, in order, and `sent`
      the bytes that the socket took. */
  datatype History = History(
    accepted: seq<Callback>, served: seq<Served>, answered: nat,
    aside: seq<Callback>, asideServed: seq<Served>,
    received: seq<Reply>, strays: seq<Reply>, trace: seq<Event>, arrivals: seq<nat>,
    deeds: seq<Deed>, sent: bytes)

  const NEW := History([], [], 0, [], [], [], [], [], [], [], [])

  /** Nothing that has happened is undone. */
  predicate Before(h: History, h': History) {
    && h.accepted <= h'.accepted && h.served <= h'.served
    && h.aside <= h'.aside && h.asideServed <= h'.asideServed
    && h.received <= h'.received && h.strays <= h'.strays
    && h.trace <= h'.trace && h.arrivals <= h'.arrivals
    && h.deeds <= h'.deeds && h.sent <= h'.sent
  }

  /** The server never sends more replies than there are commands: when the i-th reply
      arrives, more than i commands have been accepted. */
  predicate Orderly(h: History) {
    forall i :: 0 <= i < |h.arrivals| ==> i < h.arrivals[i]
  }

  /** k replies arrive after n commands. */
  function Arriving(n: nat, k: nat): (a: seq<nat>)
    ensures |a| == k && forall i :: 0 <= i < k ==> a[i] == n
  {
    seq(k, _ => n)
  }

  /** Replies go on arriving in good order exactly if commands wait for all that arrive
      together. */
  lemma OrderlyArrival(h: History, k: nat)
    ensures Orderly(h.(arrivals := h.arrivals + Arriving(|h.accepted|, k)))
       <==> Orderly(h) && (k > 0 ==> |h.arrivals| + k <= |h.accepted|)
    ensures Orderly(NEW)
  {
    var all := h.arrivals + Arriving(|h.accepted|, k);
    assert forall i :: 0 <= i < |h.arrivals| ==> all[i] == h.arrivals[i];
    assert k > 0 ==> all[|h.arrivals| + k - 1] == |h.accepted|;
  }

  function CallbacksOf(served: seq<Served>): (cbs: seq<Callback>)
    ensures |cbs| == |served| && forall i :: 0 <= i < |cbs| ==> cbs[i] == served[i].cb
  {
    if served == [] then [] else CallbacksOf(served[..|served| - 1]) + [served[|served| - 1].cb]
  }

  /** The run that a callback gets: none if it has no function. */
  function RunOf(source: Source, cb: Callback, reply: Option<Reply>): seq<Event> {
    if cb.fn.Some? then [Ran(source, cb, reply)] else []
  }

  function RunsOf(source: Source, served: seq<Served>): seq<Event> {
    if served == [] then []
    else
      var last := served[|served| - 1];
      RunsOf(source, served[..|served| - 1]) + RunOf(source, last.cb, last.reply)
  }

  /** The runs of callbacks from one source, out of everything that happened. */
  function RunsFrom(source: Source, trace: seq<Event>): seq<Event> {
    if trace == [] then []
    else
      var last := trace[|trace| - 1];
      RunsFrom(source, trace[..|trace| - 1]) + (if last.Ran? && last.source == source then [last] else [])
  }

  /** The replies that callbacks were given. */
  function Given(served: seq<Served>): seq<Reply> {
    if served == [] then []
    else
      var last := served[|served| - 1];
      Given(served[..|served| - 1]) + (if last.reply.Some? then [last.reply.value] else [])
  }

  lemma ServedSnoc(source: Source, served: seq<Served>, s: Served)
    ensures CallbacksOf(served + [s]) == CallbacksOf(served) + [s.cb]
    ensures RunsOf(source, served + [s]) == RunsOf(source, served) + RunOf(source, s.cb, s.reply)
    ensures Given(served + [s]) == Given(served) + (if s.reply.Some? then [s.reply.value] else [])
  {
    assert (served + [s])[..|served|] == served;
  }

  lemma RunsSnoc(source: Source, trace: seq<Event>, e: Event)
    ensures RunsFrom(source, trace + [e])
         == RunsFrom(source, trace) + (if e.Ran? && e.source == source then [e] else [])
  {
    assert (trace + [e])[..|trace|] == trace;
  }

  lemma RunsRun(which: Source, trace: seq<Event>, source: Source, cb: Callback, reply: Option<Reply>)
    ensures RunsFrom(which, trace + RunOf(source, cb, reply))
         == RunsFrom(which, trace) + (if source == which then RunOf(source, cb, reply) else [])
  {
    if cb.fn.Some? {
      RunsSnoc(which, trace, Ran(source, cb, reply));
    } else {
      assert trace + [] == trace;
    }
  }

  /** The context lives: callbacks have run, and perhaps the connect callback. */
  predicate Live(trace: seq<Event>) {
    forall i :: 0 <= i < |trace| ==> trace[i].Ran? || trace[i].Opened?
  }

  /** The connect callback, if it is to be told. */
  function Greeting(told: bool, ok: bool): seq<Event> {
    if told then [Opened(ok)] else []
  }

  lemma Greeted(trace: seq<Event>, told: bool, ok: bool)
    requires Live(trace)
    ensures Live(trace + Greeting(told, ok))
    ensures forall source :: RunsFrom(source, trace + Greeting(told, ok)) == RunsFrom(source, trace)
  {
    if told {
      forall source {
        RunsSnoc(source, trace, Opened(ok));
      }
    } else {
      assert trace + [] == trace;
    }
  }

  lemma LiveRun(trace: seq<Event>, source: Source, cb: Callback, reply: Option<Reply>)
    requires Live(trace)
    ensures Live(trace + RunOf(source, cb, reply))
  {
  }

  /** The context was freed, once, as the last thing; if the disconnect callback was
      called, that was after all other callbacks and just before. */
  predicate Ended(trace: seq<Event>) {
    && trace != [] && trace[|trace| - 1] == Freed
    && forall i :: 0 <= i < |trace| - 1 ==>
         trace[i].Ran? || trace[i].Opened? || (trace[i].Closed? && i == |trace| - 2)
  }

  /** How it ends: with the disconnect callback, if it is to be told, and the free. */
  function Conclusion(told: bool, ok: bool): seq<Event> {
    (if told then [Closed(ok)] else []) + [Freed]
  }

  lemma Concluded(trace: seq<Event>, told: bool, ok: bool)
    requires Live(trace)
    ensures Ended(trace + Conclusion(told, ok))
    ensures forall source :: RunsFrom(source, trace + Conclusion(told, ok)) == RunsFrom(source, trace)
  {
    var t := if told then trace + [Closed(ok)] else trace;
    assert trace + Conclusion(told, ok) == t + [Freed];
    forall source: Source
      ensures RunsFrom(source, t + [Freed]) == RunsFrom(source, trace)
    {
      RunsSnoc(source, trace, Closed(ok));
      RunsSnoc(source, t, Freed);
    }
  }

  // --------------------------------------------------------------------------
  // What always holds

  /** z holds the elements of x and those of y, each in their order. */
  predicate Interleaved(x: seq<Reply>, y: seq<Reply>, z: seq<Reply>)
    decreases |z|
  {
    |z| == |x| + |y|
    && (z == []
        || (x != [] && x[|x| - 1] == z[|z| - 1] && Interleaved(x[..|x| - 1], y, z[..|z| - 1]))
        || (y != [] && y[|y| - 1] == z[|z| - 1] && Interleaved(x, y[..|y| - 1], z[..|z| - 1])))
  }

  lemma InterleavedSnoc(x: seq<Reply>, y: seq<Reply>, z: seq<Reply>, r: Reply)
    requires Interleaved(x, y, z)
    ensures Interleaved(x + [r], y, z + [r]) && Interleaved(x, y + [r], z + [r])
  {
    assert (x + [r])[..|x|] == x && (y + [r])[..|y|] == y && (z + [r])[..|z|] == z;
  }

  lemma {:induction false} InterleavedNone(x: seq<Reply>, z: seq<Reply>)
    requires Interleaved(x, [], z)
    ensures x == z
    decreases |z|
  {
    if z != [] {
      InterleavedNone(x[..|x| - 1], z[..|z| - 1]);
      assert x == x[..|x| - 1] + [x[|x| - 1]] && z == z[..|z| - 1] + [z[|z| - 1]];
    }
  }

  /** Every accepted callback has been served or waits, in the order of acceptance, and so
      has every one that was put aside while subscribed. */
  predicate Ordered(h: History, queue: seq<Callback>, late: seq<Callback>) {
    && CallbacksOf(h.served) + queue == h.accepted
    && CallbacksOf(h.asideServed) + late == h.aside
  }

  /** The first so many of those served got the replies, in the order in which these came,
      and the others none. The replies that were not given to them are the strays. */
  predicate Matched(served: seq<Served>, answered: nat, strays: seq<Reply>, received: seq<Reply>) {
    && answered <= |served|
    && (forall i :: 0 <= i < |served| ==> (served[i].reply.Some? <==> i < answered))
    && Interleaved(Given(served), strays, received)
  }

  /** What was run is what was served. */
  predicate Consistent(h: History) {
    && RunsFrom(Regular, h.trace) == RunsOf(Regular, h.served)
    && RunsFrom(Invalid, h.trace) == RunsOf(Invalid, h.asideServed)
    && Matched(h.served, h.answered, h.strays, h.received)
  }

  predicate Sound(h: History, queue: seq<Callback>, late: seq<Callback>) {
    Ordered(h, queue, late) && Consistent(h)
  }

  /** One more callback was run. */
  function Running(h: History, source: Source, cb: Callback, reply: Option<Reply>): History {
    h.(trace := h.trace + RunOf(source, cb, reply))
  }

  /** The callback t was served. */
  function Serving(h: History, t: Callback, reply: Option<Reply>): History {
    h.(served := h.served + [Served(t, reply)],
       answered := h.answered + (if reply.Some? then 1 else 0),
       received := h.received + (if reply.Some? then [reply.value] else []))
  }

  /** The callback t, which had been put aside, has left its list. */
  function Aside(h: History, t: Callback, reply: Option<Reply>): History {
    h.(asideServed := h.asideServed + [Served(t, reply)])
  }

  /** A reply found the queue empty. */
  function Straying(h: History, reply: Reply): History {
    h.(received := h.received + [reply], strays := h.strays + [reply], deeds := h.deeds + [Heard(reply)])
  }

  lemma ShiftedOver(served: seq<Callback>, t: Callback, left: seq<Callback>)
    ensures served + [t] + left == served + ([t] + left)
  {
  }

  lemma MatchedServing(h: History, t: Callback, reply: Option<Reply>)
    requires Matched(h.served, h.answered, h.strays, h.received)
    requires reply.Some? ==> h.answered == |h.served|
    ensures var h' := Serving(h, t, reply); Matched(h'.served, h'.answered, h'.strays, h'.received)
  {
    ServedSnoc(Regular, h.served, Served(t, reply));
    if reply.Some? {
      InterleavedSnoc(Given(h.served), h.strays, h.received, reply.value);
    } else {
      assert Given(h.served) + [] == Given(h.served) && h.received + [] == h.received;
    }
  }

  lemma SoundServing(h: History, t: Callback, queue: seq<Callback>, late: seq<Callback>, reply: Option<Reply>)
    requires Sound(h, [t] + queue, late)
    requires reply.Some? ==> h.answered == |h.served|
    ensures Sound(Running(Serving(h, t, reply), Regular, t, reply), queue, late)
  {
    MatchedServing(h, t, reply);
    ServedSnoc(Regular, h.served, Served(t, reply));
    ShiftedOver(CallbacksOf(h.served), t, queue);
    RunsRun(Regular, h.trace, Regular, t, reply);
    RunsRun(Invalid, h.trace, Regular, t, reply);
  }

  lemma SoundAside(h: History, t: Callback, queue: seq<Callback>, late: seq<Callback>, reply: Option<Reply>)
    requires Sound(h, queue, [t] + late)
    ensures Sound(Running(Aside(h, t, reply), Invalid, t, reply), queue, late)
  {
    ServedSnoc(Invalid, h.asideServed, Served(t, reply));
    ShiftedOver(CallbacksOf(h.asideServed), t, late);
    RunsRun(Regular, h.trace, Invalid, t, reply);
    RunsRun(Invalid, h.trace, Invalid, t, reply);
  }

  /** A callback that comes from neither list. */
  lemma SoundRunning(h: History, queue: seq<Callback>, late: seq<Callback>,
                     source: Source, cb: Callback, reply: Option<Reply>)
    requires Sound(h, queue, late) && source != Regular && source != Invalid
    ensures Sound(Running(h, source, cb, reply), queue, late)
  {
    RunsRun(Regular, h.trace, source, cb, reply);
    RunsRun(Invalid, h.trace, source, cb, reply);
  }

  lemma SoundStraying(h: History, queue: seq<Callback>, late: seq<Callback>, reply: Reply)
    requires Sound(h, queue, late)
    ensures Sound(Straying(h, reply), queue, late)
  {
    InterleavedSnoc(Given(h.served), h.strays, h.received, reply);
  }

  /** What the first n accepted callbacks should see: each runs once, in order, with the
      reply of its place or, if there is none, without one. */
  function ExpectedRuns(accepted: seq<Callback>, given: seq<Reply>, n: nat): seq<Event>
    requires n <= |accepted|
  {
    if n == 0 then []
    else
      ExpectedRuns(accepted, given, n - 1)
      + RunOf(Regular, accepted[n - 1], if n - 1 < |given| then Some(given[n - 1]) else None)
  }

  /** What has run for ordinary commands is what should have: for the first accepted
      commands, as far as they have been served, with the replies that are no strays. */
  predicate InOrder(h: History) {
    && |h.served| <= |h.accepted|
    && RunsFrom(Regular, h.trace) == ExpectedRuns(h.accepted, Given(h.served), |h.served|)
    && Interleaved(Given(h.served), h.strays, h.received)
  }

  lemma {:induction false} GivenAt(served: seq<Served>, answered: nat)
    requires answered <= |served| && forall i :: 0 <= i < |served| ==> (served[i].reply.Some? <==> i < answered)
    ensures |Given(served)| == answered
    ensures forall i :: 0 <= i < answered ==> served[i].reply == Some(Given(served)[i])
  {
    if served != [] {
      var front := served[..|served| - 1];
      assert forall i :: 0 <= i < |front| ==> front[i] == served[i];
      GivenAt(front, if answered < |served| then answered else |front|);
    }
  }

  lemma {:induction false} RunsAsExpected(served: seq<Served>, accepted: seq<Callback>, given: seq<Reply>, n: nat)
    requires n <= |served| && n <= |accepted|
    requires forall i :: 0 <= i < n ==> served[i].cb == accepted[i]
    requires forall i :: 0 <= i < n ==> served[i].reply == if i < |given| then Some(given[i]) else None
    ensures RunsOf(Regular, served[..n]) == ExpectedRuns(accepted, given, n)
  {
    if n > 0 {
      RunsAsExpected(served, accepted, given, n - 1);
      assert served[..n] == served[..n - 1] + [served[n - 1]];
      ServedSnoc(Regular, served[..n - 1], served[n - 1]);
    }
  }

  /** What always holds makes the runs of ordinary callbacks the expected ones. */
  lemma SoundInOrder(h: History, queue: seq<Callback>, late: seq<Callback>)
    requires Sound(h, queue, late)
    ensures InOrder(h) && forall i :: 0 <= i < |h.served| ==> h.served[i].cb == h.accepted[i]
    ensures |h.asideServed| <= |h.aside|
    ensures forall i :: 0 <= i < |h.asideServed| ==> h.asideServed[i].cb == h.aside[i]
    ensures h.strays == [] ==> Given(h.served) == h.received
  {
    forall i | 0 <= i < |h.served|
      ensures h.served[i].cb == h.accepted[i]
    {
      assert h.accepted[i] == CallbacksOf(h.served)[i];
    }
    forall i | 0 <= i < |h.asideServed|
      ensures h.asideServed[i].cb == h.aside[i]
    {
      assert h.aside[i] == CallbacksOf(h.asideServed)[i];
    }
    GivenAt(h.served, h.answered);
    RunsAsExpected(h.served, h.accepted, Given(h.served), |h.served|);
    assert h.served[..|h.served|] == h.served;
    if h.strays == [] {
      InterleavedNone(Given(h.served), h.received);
    }
  }

  // --------------------------------------------------------------------------
  // Teardown

  /** The runs of callbacks that get no reply, one after the other. */
  function Unanswered(source: Source, cbs: seq<Callback>): seq<Event> {
    if cbs == [] then [] else RunOf(source, cbs[0], None) + Unanswered(source, cbs[1..])
  }

  /** Running the first of the callbacks that are left comes to the same in the end. */
  lemma UnansweredNext(trace: seq<Event>, source: Source, cb: Callback, rest: seq<Callback>)
    ensures trace + Unanswered(source, [cb] + rest) == trace + RunOf(source, cb, None) + Unanswered(source, rest)
  {
    assert ([cb] + rest)[1..] == rest;
  }

  lemma {:induction false} UnansweredSnoc(source: Source, cbs: seq<Callback>, cb: Callback)
    ensures Unanswered(source, cbs + [cb]) == Unanswered(source, cbs) + RunOf(source, cb, None)
  {
    if cbs == [] {
      assert [] + [cb] == [cb] + [];
      UnansweredNext([], source, cb, []);
    } else {
      assert (cbs + [cb])[1..] == cbs[1..] + [cb];
      UnansweredSnoc(source, cbs[1..], cb);
    }
  }

  /** The callbacks of some names. */
  function Picked(registered: map<bytes, Callback>, names: seq<bytes>): seq<Callback>
    requires forall k :: k in names ==> k in registered
  {
    seq(|names|, i requires 0 <= i < |names| => registered[names[i]])
  }

  lemma PickedSnoc(registered: map<bytes, Callback>, names: seq<bytes>, name: bytes)
    requires forall k :: k in names + [name] ==> k in registered
    ensures forall k :: k in names ==> k in registered
    ensures Picked(registered, names + [name]) == Picked(registered, names) + [registered[name]]
  {
    assert forall k :: k in names ==> k in names + [name];
    assert name in names + [name];
  }

  /** The names of a table in some order, each once. */
  ghost predicate Lists(names: seq<bytes>, registered: map<bytes, Callback>) {
    NoDup(names) && Elems(names) == registered.Keys
  }

  ghost predicate NotifiedIn(before: seq<Event>, registered: map<bytes, Callback>, names: seq<bytes>,
                             after: seq<Event>) {
    && (forall k :: k in names ==> k in registered)
    && after == before + Unanswered(Message, Picked(registered, names))
  }

  /** Every registered callback was run once without a reply. */
  ghost predicate Notified(before: seq<Event>, registered: map<bytes, Callback>, after: seq<Event>) {
    exists names :: Lists(names, registered) && NotifiedIn(before, registered, names, after)
  }

  lemma NotifiedNone(before: seq<Event>, registered: map<bytes, Callback>)
    ensures NotifiedIn(before, registered, [], before)
  {
    assert before + Unanswered(Message, Picked(registered, [])) == before;
  }

  ghost predicate BothNotified(before: seq<Event>, channels: map<bytes, Callback>, patterns: map<bytes, Callback>,
                               after: seq<Event>)
  {
    exists mid :: Notified(before, channels, mid) && Notified(mid, patterns, after)
  }

  /** All that was pending was run without a reply: what waited, in order, then what was
      sent while subscribed, in order, then the callbacks of channels and of patterns. */
  ghost predicate AllRun(before: seq<Event>, queue: seq<Callback>, late: seq<Callback>,
                         channels: map<bytes, Callback>, patterns: map<bytes, Callback>, after: seq<Event>)
  {
    BothNotified(before + Unanswered(Regular, queue) + Unanswered(Invalid, late), channels, patterns, after)
  }
}
