/** The asynchronous context: commands queue their callbacks, replies release them in
    order, and callbacks may call back into the context while they run. */
module Async {
  import opened Bytes
  import opened Resp
  import opened Command
  import opened Arguments
  import opened Dict
  import opened CallbackList
  import opened Machine
  import opened Events
  import opened History
  import opened Ledger
  import opened PubSub
  import opened Subscriptions

  /** Register a callback for the names, one after the other. */
  method Register(m: map<bytes, Callback>, names: seq<bytes>, cb: Callback) returns (r: map<bytes, Callback>)
    ensures r == Registered(m, names, cb)
  {
    r := m;
    for j := 0 to |names|
      invariant r == Registered(m, names[..j], cb)
    {
      assert names[..j + 1] == names[..j] + [names[j]];
      r := r[names[j] := cb];
    }
    assert names[..|names|] == names;
  }

  lemma OneNameMore(names: seq<bytes>, k: bytes)
    ensures Elems(names + [k]) == Elems(names) + {k} && (k in names <==> k in Elems(names))
  {
  }

  class AsyncContext {
    const user: User

    const pending: Pending
    var channels: map<bytes, Callback>
    var patterns: map<bytes, Callback>

    var flags: set<Flag>
    /** The error of the asynchronous context and that of the connection below. */
    var err: int
    var cerr: int
    var obuf: bytes
    /** Replies that the reader has and, after them, whether it is in error. */
    var inbox: seq<Reply>
    var broken: bool

    var calls: nat
    /** An assertion of the code has failed, or the context has been freed. */
    var aborted: bool
    var freed: bool

    ghost var hist: History

    /** What there is to see of the context. */
    ghost function Now(): Snapshot
      reads this, pending
    {
      Snapshot(hist, flags, err, cerr, obuf, pending.queue, pending.late, channels, patterns, calls, freed, aborted)
    }

    ghost predicate Intact()
      reads pending, pending.repr
    {
      pending.Valid() && this !in pending.repr
    }

    /** The state between calls from outside. */
    ghost predicate Valid()
      reads this, pending, pending.repr
    {
      Intact() && Good(Now())
    }

    /** The state between events: nothing is left over. */
    ghost predicate Settled()
      reads this, pending, pending.repr
    {
      Intact() && Proper(Now()) && (freed || aborted || (inbox == [] && !broken))
    }

    /** A new context has the error of its connection. */
    constructor (user: User, cerr: int)
      ensures Settled() && this.user == user && fresh(pending) && fresh(pending.repr)
      ensures Now() == Snapshot(NEW, {}, cerr, cerr, [], [], [], map[], map[], 0, false, false)
    {
      this.user := user;
      pending := new Pending();
      channels, patterns := map[], map[];
      flags, err, this.cerr, obuf, inbox, broken := {}, cerr, cerr, [], [], false;
      calls, aborted, freed := 0, false, false;
      hist := NEW;
    }

    // ----------------------------------------------------------------------
    // Commands

    /** Add every channel or pattern to the subscription callbacks. */
    method RegisterNames(pattern: bool, names: seq<bytes>, cb: Callback)
      modifies this`flags, this`channels, this`patterns
      ensures Now() == Dispatched(old(Now()), Subscribe(pattern), names, cb)
    {
      flags := flags + {Subscribed};
      if pattern {
        patterns := Register(patterns, names, cb);
      } else {
        channels := Register(channels, names, cb);
      }
    }

    /** Queue the callback of an ordinary command. */
    method Enqueue(cb: Callback)
      requires Intact()
      modifies this`hist, pending, pending.repr
      ensures Intact() && fresh(pending.repr - old(pending.repr))
      ensures Now() == Dispatched(old(Now()), Other, [], cb)
    {
      if Subscribed in flags {
        pending.PushLate(cb);
        hist := hist.(aside := hist.aside + [cb]);
      } else {
        pending.Push(cb);
        hist := hist.(accepted := hist.accepted + [cb]);
      }
    }

    /** Register or queue the callback of a command of the given kind. */
    method Dispatch(kind: CmdKind, names: seq<bytes>, cb: Callback)
      requires Intact()
      modifies this`flags, this`channels, this`patterns, this`hist, pending, pending.repr
      ensures Intact() && fresh(pending.repr - old(pending.repr))
      ensures Now() == Dispatched(old(Now()), kind, names, cb)
    {
      match kind {
        case Subscribe(pattern) => RegisterNames(pattern, names, cb);
        case Unsubscribe =>
        case Other => Enqueue(cb);
      }
    }

    /** `__redisAsyncCommand`: queue a command unless the context is about to go. */
    method TakeCommand(fn: Option<nat>, privdata: nat, argv: CommandLine) returns (ok: bool)
      requires Intact()
      modifies this`flags, this`channels, this`patterns, this`obuf, this`hist, pending, pending.repr
      ensures Intact() && fresh(pending.repr - old(pending.repr))
      ensures ok == Accepts(old(flags), argv) && Now() == Commanded(old(Now()), fn, privdata, argv)
    {
      hide Classify, Dispatched, Encode;
      if Disconnecting in flags || Freeing in flags {
        return false;
      }
      ShortInside(argv);
      var kind, names := ReadCommand(Encode(argv) + [NUL], argv);
      if kind == Unsubscribe && Subscribed !in flags {
        return false;
      }
      Dispatch(kind, names, Callback(fn, privdata));
      obuf := obuf + Encode(argv);
      hist := hist.(deeds := hist.deeds + [Issued(argv, Callback(fn, privdata))]);
      return true;
    }

    /** `redisAsyncFormattedCommand`: who waits for what afterwards. */
    method AsyncCommand(fn: Option<nat>, privdata: nat, argv: CommandLine) returns (ok: bool)
      requires Intact()
      modifies this`flags, this`channels, this`patterns, this`obuf, this`hist, pending, pending.repr
      ensures Intact() && fresh(pending.repr - old(pending.repr))
      ensures Now() == Commanded(old(Now()), fn, privdata, argv)
      ensures ok == !(Disconnecting in old(flags) || Freeing in old(flags)
                      || (Unsubscribes(argv) && Subscribed !in old(flags)))
      ensures if ok then obuf == old(obuf) + Encode(argv) else Now() == old(Now())
      ensures ok && Ordinary(argv) ==> channels == old(channels) && patterns == old(patterns)
      ensures ok && Ordinary(argv) && Subscribed !in old(flags) ==>
        && pending.queue == old(pending.queue) + [Callback(fn, privdata)] && pending.late == old(pending.late)
        && hist.accepted == old(hist.accepted) + [Callback(fn, privdata)]
      ensures ok && Ordinary(argv) && Subscribed in old(flags) ==>
        && pending.late == old(pending.late) + [Callback(fn, privdata)] && pending.queue == old(pending.queue)
        && hist.aside == old(hist.aside) + [Callback(fn, privdata)]
    {
      hide Commanded, Ordinary, Unsubscribes, Accepts, Encode;
      CommandEffect(Now(), fn, privdata, argv);
      ok := TakeCommand(fn, privdata, argv);
    }

    // ----------------------------------------------------------------------
    // Running callbacks

    /** What a running callback asks for: a command is queued, but disconnecting and
        freeing are only noted. */
    method Perform(action: Action)
      requires Intact() && InCallback in flags
      modifies this`flags, this`channels, this`patterns, this`obuf, this`hist, pending, pending.repr
      ensures Intact() && fresh(pending.repr - old(pending.repr))
      ensures Now() == Noted(old(Now()), action) && InCallback in flags
      decreases 0, 13
    {
      NotedNotes(Now(), action);
      match action {
        case Issue(fn, privdata, argv) =>
          var ok := AsyncCommand(fn, privdata, argv);
        case Disconnect => AsyncDisconnect();
        case Free => AsyncFree();
      }
    }

    method PerformAll(actions: seq<Action>)
      requires Intact() && InCallback in flags
      modifies this`flags, this`channels, this`patterns, this`obuf, this`hist, pending, pending.repr
      ensures Intact() && fresh(pending.repr - old(pending.repr))
      ensures Now() == AllNoted(old(Now()), actions)
      decreases 0, 14
    {
      for i := 0 to |actions|
        invariant Intact() && fresh(pending.repr - old(pending.repr)) && InCallback in flags
        invariant Now() == AllNoted(old(Now()), actions[..i])
      {
        Perform(actions[i]);
        assert actions[..i + 1][..i] == actions[..i];
      }
      assert actions[..|actions|] == actions;
    }

    /** The user's part of a callback, with the flag that tells so. */
    method CallUser()
      requires Intact() && InCallback !in flags
      modifies this`flags, this`channels, this`patterns, this`obuf, this`hist, this`calls, pending, pending.repr
      ensures Intact() && fresh(pending.repr - old(pending.repr))
      ensures Now() == AllNoted(old(Now()).(calls := old(calls) + 1), user.script(old(calls)))
      decreases 1, 0
    {
      var actions := user.script(calls);
      calls := calls + 1;
      ghost var b := Now();
      AllNotedWithin(b, actions);
      flags := flags + {InCallback};
      PerformAll(actions);
      WithinBack(AllNoted(b, actions));
      flags := flags - {InCallback};
    }

    /** `__redisRunCallback`: the callback may call back into the context, and all that it
        asks for takes effect. */
    method RunCallback(source: Source, cb: Callback, reply: Option<Reply>)
      requires Intact() && InCallback !in flags
      modifies this`flags, this`channels, this`patterns, this`obuf, this`hist, this`calls, pending, pending.repr
      ensures Intact() && fresh(pending.repr - old(pending.repr))
      ensures Now() == Called(user, old(Now()), source, cb, reply)
      decreases 1, 1
    {
      hide AllNoted;
      hist := Running(hist, source, cb, reply);
      if cb.fn.Some? {
        CallUser();
      }
    }

    /** Serve the callback that was shifted, with a reply or, at teardown, without. */
    method Serve(t: Callback, reply: Option<Reply>)
      requires Intact() && InCallback !in flags
      modifies this`flags, this`channels, this`patterns, this`obuf, this`hist, this`calls, pending, pending.repr
      ensures Intact() && fresh(pending.repr - old(pending.repr))
      ensures Now() == Called(user, old(Now()).(hist := Serving(old(hist), t, reply)), Regular, t, reply)
      decreases 1, 2
    {
      hist := Serving(hist, t, reply);
      RunCallback(Regular, t, reply);
    }

    // ----------------------------------------------------------------------
    // Teardown

    /** The condition under which callbacks are drained: none of them can queue more. */
    ghost predicate Closing()
      reads this, pending, pending.repr
    {
      Intact() && Steady(Now()) && Refuses(flags)
    }

    /** Serve the next waiting callback without a reply, if there is one. */
    method DrainReply() returns (more: bool)
      requires Closing()
      modifies this`flags, this`channels, this`patterns, this`obuf, this`hist, this`calls, pending, pending.repr
      ensures Closing() && fresh(pending.repr - old(pending.repr)) && Drained(user, old(Now()), Now())
      ensures more == (old(pending.queue) != []) && pending.queue == (if more then old(pending.queue)[1..] else [])
      ensures pending.late == old(pending.late)
      ensures hist.trace + Unanswered(Regular, pending.queue)
           == old(hist.trace) + Unanswered(Regular, old(pending.queue))
      decreases 1, 4
    {
      hide Sound, Live, Unanswered, Called;
      ghost var a := Now();
      DrainedNone(user, a);
      var t := pending.Shift();
      if t.None? {
        return false;
      }
      assert a.queue == [t.value] + pending.queue;
      UnansweredNext(hist.trace, Regular, t.value, pending.queue);
      DrainedServed(user, a);
      Serve(t.value, None);
      more := true;
    }

    /** Serve every waiting callback without a reply. */
    method DrainReplies()
      requires Closing()
      modifies this`flags, this`channels, this`patterns, this`obuf, this`hist, this`calls, pending, pending.repr
      ensures Closing() && fresh(pending.repr - old(pending.repr)) && Drained(user, old(Now()), Now())
      ensures pending.queue == [] && pending.late == old(pending.late)
      ensures hist.trace == old(hist.trace) + Unanswered(Regular, old(pending.queue))
      decreases 1, 5
    {
      hide Steady, Drained;
      var more := true;
      DrainedNone(user, Now());
      while more
        invariant Closing() && fresh(pending.repr - old(pending.repr)) && Drained(user, old(Now()), Now())
        invariant pending.late == old(pending.late) && (!more ==> pending.queue == [])
        invariant hist.trace + Unanswered(Regular, pending.queue)
               == old(hist.trace) + Unanswered(Regular, old(pending.queue))
        decreases more, |pending.queue|
      {
        ghost var b := Now();
        more := DrainReply();
        DrainedJoin(user, old(Now()), b, Now());
      }
    }

    /** Run the next callback of a command that was sent while subscribed. */
    method DrainLate() returns (more: bool)
      requires Closing()
      modifies this`flags, this`channels, this`patterns, this`obuf, this`hist, this`calls, pending, pending.repr
      ensures Closing() && fresh(pending.repr - old(pending.repr)) && Drained(user, old(Now()), Now())
      ensures more == (old(pending.late) != []) && pending.late == (if more then old(pending.late)[1..] else [])
      ensures pending.queue == old(pending.queue)
      ensures hist.trace + Unanswered(Invalid, pending.late)
           == old(hist.trace) + Unanswered(Invalid, old(pending.late))
      decreases 1, 3
    {
      hide Sound, Live, Unanswered, Called;
      ghost var a := Now();
      DrainedNone(user, a);
      var t := pending.ShiftLate();
      if t.None? {
        return false;
      }
      assert a.late == [t.value] + pending.late;
      UnansweredNext(hist.trace, Invalid, t.value, pending.late);
      DrainedAside(user, a);
      hist := Aside(hist, t.value, None);
      RunCallback(Invalid, t.value, None);
      more := true;
    }

    /** Run the callbacks of commands that were sent while subscribed. */
    method DrainInvalid()
      requires Closing()
      modifies this`flags, this`channels, this`patterns, this`obuf, this`hist, this`calls, pending, pending.repr
      ensures Closing() && fresh(pending.repr - old(pending.repr)) && Drained(user, old(Now()), Now())
      ensures pending.late == [] && pending.queue == old(pending.queue)
      ensures hist.trace == old(hist.trace) + Unanswered(Invalid, old(pending.late))
      decreases 1, 4
    {
      hide Steady, Drained;
      var more := true;
      DrainedNone(user, Now());
      while more
        invariant Closing() && fresh(pending.repr - old(pending.repr)) && Drained(user, old(Now()), Now())
        invariant pending.queue == old(pending.queue) && (!more ==> pending.late == [])
        invariant hist.trace + Unanswered(Invalid, pending.late)
               == old(hist.trace) + Unanswered(Invalid, old(pending.late))
        decreases more, |pending.late|
      {
        ghost var b := Now();
        more := DrainLate();
        DrainedJoin(user, old(Now()), b, Now());
      }
    }

    /** Run one registered callback. */
    method Notify(registered: map<bytes, Callback>, k: bytes, ghost names: seq<bytes>, ghost before: seq<Event>)
      requires Closing() && k in registered && k !in names
      requires NoDup(names) && NotifiedIn(before, registered, names, hist.trace)
      modifies this`flags, this`channels, this`patterns, this`obuf, this`hist, this`calls, pending, pending.repr
      ensures Closing() && fresh(pending.repr - old(pending.repr)) && Drained(user, old(Now()), Now())
      ensures pending.queue == old(pending.queue) && pending.late == old(pending.late)
      ensures NoDup(names + [k]) && NotifiedIn(before, registered, names + [k], hist.trace)
      decreases 1, 3
    {
      hide Sound, Live, Unanswered, Called;
      NoDupSnoc(names, k);
      PickedSnoc(registered, names, k);
      UnansweredSnoc(Message, Picked(registered, names), registered[k]);
      DrainedCalled(user, Now(), registered[k]);
      RunCallback(Message, registered[k], None);
    }

    /** The callbacks of these names have been run; those of the names left are to come. */
    ghost predicate Notifying(registered: map<bytes, Callback>, left: set<bytes>, names: seq<bytes>, before: seq<Event>)
      reads this, pending, pending.repr
    {
      && Closing() && left <= registered.Keys && Elems(names) == registered.Keys - left && NoDup(names)
      && NotifiedIn(before, registered, names, hist.trace)
    }

    method NotifyNext(registered: map<bytes, Callback>, left: set<bytes>, ghost names: seq<bytes>,
                      ghost before: seq<Event>)
      returns (left': set<bytes>, ghost names': seq<bytes>)
      requires Notifying(registered, left, names, before) && left != {}
      modifies this`flags, this`channels, this`patterns, this`obuf, this`hist, this`calls, pending, pending.repr
      ensures Notifying(registered, left', names', before) && left' < left
      ensures fresh(pending.repr - old(pending.repr)) && Drained(user, old(Now()), Now())
      ensures pending.queue == old(pending.queue) && pending.late == old(pending.late)
      decreases 1, 4
    {
      hide Steady, Drained;
      var k :| k in left;
      OneNameMore(names, k);
      Notify(registered, k, names, before);
      left', names' := left - {k}, names + [k];
    }

    /** Run the callbacks registered for channels or patterns, each once. */
    method NotifyAll(registered: map<bytes, Callback>)
      requires Closing()
      modifies this`flags, this`channels, this`patterns, this`obuf, this`hist, this`calls, pending, pending.repr
      ensures Closing() && fresh(pending.repr - old(pending.repr)) && Drained(user, old(Now()), Now())
      ensures pending.queue == old(pending.queue) && pending.late == old(pending.late)
      ensures Notified(old(hist.trace), registered, hist.trace)
      decreases 1, 5
    {
      hide Steady, Drained;
      var left := registered.Keys;
      ghost var names: seq<bytes>, before := [], hist.trace;
      NotifiedNone(before, registered);
      DrainedNone(user, Now());
      while left != {}
        invariant Notifying(registered, left, names, before)
        invariant fresh(pending.repr - old(pending.repr)) && Drained(user, old(Now()), Now())
        invariant pending.queue == old(pending.queue) && pending.late == old(pending.late)
        decreases left
      {
        ghost var b := Now();
        left, names := NotifyNext(registered, left, names, before);
        DrainedJoin(user, old(Now()), b, Now());
      }
      assert Lists(names, registered);
    }

    method DrainQueues()
      requires Closing()
      modifies this`flags, this`channels, this`patterns, this`obuf, this`hist, this`calls, pending, pending.repr
      ensures Closing() && fresh(pending.repr - old(pending.repr)) && Drained(user, old(Now()), Now())
      ensures pending.queue == [] && pending.late == []
      ensures hist.trace
           == old(hist.trace) + Unanswered(Regular, old(pending.queue)) + Unanswered(Invalid, old(pending.late))
      decreases 1, 6
    {
      hide Steady, Drained, Unanswered;
      DrainReplies();
      ghost var b := Now();
      DrainInvalid();
      DrainedJoin(user, old(Now()), b, Now());
    }

    method NotifyBoth()
      requires Closing()
      modifies this`flags, this`channels, this`patterns, this`obuf, this`hist, this`calls, pending, pending.repr
      ensures Closing() && fresh(pending.repr - old(pending.repr)) && Drained(user, old(Now()), Now())
      ensures pending.queue == old(pending.queue) && pending.late == old(pending.late)
      ensures BothNotified(old(hist.trace), old(channels), old(patterns), hist.trace)
      decreases 1, 7
    {
      hide Steady, Notified;
      NotifyAll(channels);
      ghost var b := Now();
      NotifyAll(patterns);
      DrainedJoin(user, old(Now()), b, Now());
    }

    /** Run everything that is pending. */
    method DrainAll()
      requires Closing()
      modifies this`flags, this`channels, this`patterns, this`obuf, this`hist, this`calls, pending, pending.repr
      ensures Closing() && fresh(pending.repr - old(pending.repr)) && Drained(user, old(Now()), Now())
      ensures pending.queue == [] && pending.late == []
      ensures AllRun(old(hist.trace), old(pending.queue), old(pending.late), old(channels), old(patterns), hist.trace)
      decreases 1, 8
    {
      hide Steady, Unanswered, BothNotified;
      DrainQueues();
      ghost var b := Now();
      NotifyBoth();
      DrainedJoin(user, old(Now()), b, Now());
    }

    /** The disconnect callback, if it is to be called, and the end. */
    method Conclude()
      requires Closing() && ErrorKnown(Now()) && pending.queue == [] && pending.late == []
      modifies this`hist, this`channels, this`patterns, this`freed
      ensures Valid() && Now() == Released(user, old(Now()))
    {
      hide Good, Sound, Live;
      ReleasedGood(user, Now());
      ghost var told, ok := user.onDisconnect && Connected in flags, Freeing in flags || err == 0;
      hist := hist.(trace := hist.trace + Conclusion(told, ok));
      channels, patterns, freed := map[], map[], true;
    }

    /** `__redisAsyncFree`: run every pending callback without a reply, then the
        disconnect callback, then free the context. */
    method FreeNow()
      requires Intact() && Closable(Now())
      modifies this`flags, this`channels, this`patterns, this`obuf, this`hist, this`calls, this`freed
      modifies pending, pending.repr
      ensures Valid() && fresh(pending.repr - old(pending.repr)) && Torn(user, old(Now()), Now())
      decreases 1, 9
    {
      hide Sound, Live, AllRun, Good;
      DrainAll();
      Conclude();
    }

    /** `__redisAsyncDisconnect`: after a clean disconnect nothing is pending. */
    method DisconnectNow()
      requires Intact() && Closable(Hung(Now()))
      requires cerr == 0 ==> pending.queue == []
      modifies this`flags, this`channels, this`patterns, this`obuf, this`hist, this`calls, this`freed, this`err
      modifies pending, pending.repr
      ensures Valid() && fresh(pending.repr - old(pending.repr)) && Torn(user, Hung(old(Now())), Now())
      decreases 1, 10
    {
      hide Torn, Good, Closable;
      err := cerr;
      if err == 0 {
        var t := pending.Shift();
        assert t.None?;
      } else {
        flags := flags + {Disconnecting};
      }
      FreeNow();
    }

    /** What may change at once, or only after the running callback returns. */
    ghost function Idle(): set<AsyncContext>
      reads this
    {
      if InCallback in flags then {} else {this}
    }

    /** `redisAsyncFree`: at once, or after the running callback returns. */
    method AsyncFree()
      requires InCallback !in flags ==> Valid() && !freed && !aborted
      modifies this`flags, Idle()`channels, Idle()`patterns, Idle()`obuf, Idle()`hist, Idle()`calls, Idle()`freed
      modifies if InCallback in flags then {} else {pending} + pending.repr
      ensures InCallback in old(flags) ==> flags == old(flags) + {Freeing}
      ensures InCallback !in old(flags) ==>
        && Valid() && fresh(pending.repr - old(pending.repr))
        && Reached(user, Demanded(old(Now()), Free), Now())
      decreases if InCallback in flags then 0 else 1, 12
    {
      hide Torn, Sound, Live, Ended;
      ghost var a := Now();
      flags := flags + {Freeing};
      if InCallback !in flags {
        DemandedFit(a, Free);
        assert Now() == Demanded(a, Free).state;
        FreeNow();
      }
    }

    /** Disconnect if nothing is pending. */
    method DisconnectIfIdle()
      requires Intact() && Good(Now()) && !Over(Now()) && Disconnecting in flags
      modifies this`flags, this`channels, this`patterns, this`obuf, this`hist, this`calls, this`freed, this`err
      modifies pending, pending.repr
      ensures Valid() && fresh(pending.repr - old(pending.repr))
      ensures Reached(user, if old(pending.queue) == [] then Ending(Hung(old(Now()))) else Going(old(Now())), Now())
      decreases 1, 11
    {
      hide Torn, Sound, Live, Ended;
      HungClosable(Now());
      var idle := pending.Idle();
      if idle {
        DisconnectNow();
      }
    }

    /** `redisAsyncDisconnect`: at once only if nothing is pending. */
    method AsyncDisconnect()
      requires InCallback !in flags ==> Valid() && !freed && !aborted
      modifies this`flags, Idle()`channels, Idle()`patterns, Idle()`obuf, Idle()`hist, Idle()`calls, Idle()`freed
      modifies Idle()`err, if InCallback in flags then {} else {pending} + pending.repr
      ensures InCallback in old(flags) ==> flags == old(flags) + {Disconnecting}
      ensures InCallback !in old(flags) ==>
        && Valid() && fresh(pending.repr - old(pending.repr))
        && Reached(user, Demanded(old(Now()), Disconnect), Now())
      decreases if InCallback in flags then 0 else 1, 12
    {
      hide Torn, Sound, Live, Ended;
      flags := flags + {Disconnecting};
      if InCallback !in flags {
        DisconnectIfIdle();
      }
    }

    // ----------------------------------------------------------------------
    // Replies

    /** Drop the name of a message that says it is no longer subscribed. */
    method Forget(reply: Reply) returns (ok: bool)
      requires IsMessage(reply)
      modifies this`flags, this`channels, this`patterns
      ensures ok == (Unsubscribed(reply) ==> Counts(reply)) && Now() == Forgotten(old(Now()), reply)
    {
      if Unsubscribed(reply) {
        if OfPattern(reply) {
          patterns := patterns - {reply.items[1].text};
        } else {
          channels := channels - {reply.items[1].text};
        }
        if !Counts(reply) {
          return false;
        }
        if reply.items[2].value == 0 {
          flags := flags - {Subscribed};
        }
      }
      return true;
    }

    /** Find the callback of a message. An unknown name leaves cb what it was. */
    method FindCallback(reply: Reply, cb: Callback) returns (ok: bool, source: Source, dst: Callback)
      requires IsMessage(reply)
      modifies this`flags, this`channels, this`patterns
      ensures Address(Now(), ok, source, dst) == Addressed(old(Now()), reply, cb)
    {
      var callbacks := if OfPattern(reply) then patterns else channels;
      var name := reply.items[1].text;
      if name !in callbacks {
        return true, Stale, cb;
      }
      ok := Forget(reply);
      return ok, Message, callbacks[name];
    }

    /** `__redisGetSubscribeCallback`: an array is a message and goes to the callback of
        its name; anything else answers the oldest command sent while subscribed. Without
        such a callback cb stays what it was. Not ok: an assertion fails. */
    method GetSubscribeCallback(reply: Reply, cb: Callback) returns (ok: bool, source: Source, dst: Callback)
      requires Intact()
      modifies this`flags, this`channels, this`patterns, this`hist, pending, pending.repr
      ensures Intact() && pending.repr == old(pending.repr)
      ensures Address(Now(), ok, source, dst) == Addressed(old(Now()), reply, cb)
    {
      if !reply.Array? && !reply.Hollow? {
        var t := pending.ShiftLate();
        if t.None? {
          return true, Stale, cb;
        }
        hist := Aside(hist, t.value, Some(reply));
        return true, Invalid, t.value;
      }
      if !IsMessage(reply) {
        return false, Stale, cb;
      }
      ok, source, dst := FindCallback(reply, cb);
    }

    /** Run a callback with its reply, and then free the context if that was asked for. */
    method RunFor(source: Source, cb: Callback, reply: Reply)
      requires Intact() && InCallback !in flags
      requires Fit(Returned(Called(user, Now(), source, cb, Some(reply)), cb).after)
      modifies this`flags, this`channels, this`patterns, this`obuf, this`hist, this`calls, this`freed
      modifies pending, pending.repr
      ensures Valid() && fresh(pending.repr - old(pending.repr))
      ensures Reached(user, Returned(Called(user, old(Now()), source, cb, Some(reply)), cb).after, Now())
    {
      hide Torn, Sound, Live, Ended;
      RunCallback(source, cb, Some(reply));
      if cb.fn.Some? && Freeing in flags {
        FreeNow();
      }
    }

    /** The connection fails. */
    method Fail(error: int)
      requires Intact() && Alive(Now()) && !aborted && error != 0
      modifies this`flags, this`channels, this`patterns, this`obuf, this`hist, this`calls, this`freed, this`err
      modifies this`cerr, pending, pending.repr
      ensures Valid() && fresh(pending.repr - old(pending.repr))
      ensures Reached(user, Failing(old(Now()), error), Now())
    {
      hide Torn, Sound, Live, Ended, Good;
      HungClosable(Now().(cerr := error));
      cerr := error;
      DisconnectNow();
    }

    /** A reply that finds the queue empty on a subscribed context. */
    method TakeMessage(reply: Reply, cb: Callback) returns (dst: Callback)
      requires Intact() && Alive(Now()) && !aborted && Freeing !in flags
      modifies this`flags, this`channels, this`patterns, this`obuf, this`hist, this`calls, this`freed, this`err
      modifies this`cerr, this`aborted, pending, pending.repr
      ensures Valid() && fresh(pending.repr - old(pending.repr))
      ensures var t := TakenMessage(user, old(Now()), cb, reply); Reached(user, t.after, Now()) && dst == t.cb
    {
      hide Torn, Sound, Live, Ended, Called;
      MessageFit(user, Now(), cb, reply);
      var ok, source;
      ok, source, dst := GetSubscribeCallback(reply, cb);
      if ok {
        RunFor(source, dst, reply);
      } else {
        aborted := true;
      }
    }

    /** A reply that finds the queue empty: an error reply ends the connection, and
        otherwise the context must be subscribed. */
    method TakeStray(reply: Reply, cb: Callback) returns (dst: Callback)
      requires Valid() && !freed && !aborted && pending.queue == []
      modifies this`flags, this`channels, this`patterns, this`obuf, this`hist, this`calls, this`freed, this`err
      modifies this`cerr, this`aborted, pending, pending.repr
      ensures Valid() && fresh(pending.repr - old(pending.repr))
      ensures var t := TakenStray(user, old(Now()), cb, reply); Reached(user, t.after, Now()) && dst == t.cb
    {
      hide Torn, Sound, Live, Ended, TakenMessage;
      ghost var t := TakenStray(user, Now(), cb, reply);
      TakenFit(user, Now(), cb, reply);
      SoundStraying(hist, pending.queue, pending.late, reply);
      hist := Straying(hist, reply);
      dst := cb;
      if reply.Failure? {
        assert t.after == Failing(Now(), ERR_OTHER);
        Fail(ERR_OTHER);
      } else if Subscribed !in flags {
        aborted := true;
        assert t.after == Going(Now());
      } else {
        assert t == TakenMessage(user, Now(), cb, reply);
        dst := TakeMessage(reply, cb);
      }
    }

    /** One turn of the loop over the replies: the oldest waiting callback gets the reply, if
        there is one. */
    method TakeReply(reply: Reply, cb: Callback) returns (dst: Callback)
      requires Valid() && !freed && !aborted
      modifies this`flags, this`channels, this`patterns, this`obuf, this`hist, this`calls, this`freed, this`err
      modifies this`cerr, this`aborted, pending, pending.repr
      ensures Valid() && fresh(pending.repr - old(pending.repr))
      ensures var t := Taken(user, old(Now()), cb, reply); Reached(user, t.after, Now()) && dst == t.cb
    {
      hide Torn, Sound, Live, Ended, TakenStray;
      TakenFit(user, Now(), cb, reply);
      var t := pending.Shift();
      if t.Some? {
        hist := Serving(hist, t.value, Some(reply));
        RunFor(Regular, t.value, reply);
        dst := t.value;
      } else {
        dst := TakeStray(reply, cb);
      }
    }

    /** n of the replies have been taken, in order; the others are still in the inbox. */
    ghost predicate Partway(a: Snapshot, replies: seq<Reply>, n: nat, cb: Callback)
      reads this, pending, pending.repr
    {
      && Valid() && n <= |replies| && inbox == replies[n..]
      && var t := TakenAll(user, a, replies[..n]);
        Reached(user, t.after, Now()) && cb == t.cb && Fit(t.after)
    }

    /** Take the next reply. */
    method TakeNext(cb: Callback, ghost a: Snapshot, ghost replies: seq<Reply>, ghost n: nat) returns (dst: Callback)
      requires Partway(a, replies, n, cb) && inbox != [] && !freed && !aborted
      modifies this`flags, this`channels, this`patterns, this`obuf, this`hist, this`calls, this`freed, this`err
      modifies this`cerr, this`aborted, this`inbox, pending, pending.repr
      ensures Partway(a, replies, n + 1, dst)
      ensures fresh(pending.repr - old(pending.repr))
    {
      hide Good, Taken;
      EachTaken(user, a, replies, n);
      TakenFit(user, Now(), cb, replies[n]);
      var reply := inbox[0];
      inbox := inbox[1..];
      dst := TakeReply(reply, cb);
    }

    /** Take all replies in order, until the context is at its end. */
    method TakeAll()
      requires Valid() && !freed && !aborted
      modifies this`flags, this`channels, this`patterns, this`obuf, this`hist, this`calls, this`freed, this`err
      modifies this`cerr, this`aborted, this`inbox, pending, pending.repr
      ensures Valid() && fresh(pending.repr - old(pending.repr))
      ensures Reached(user, TakenAll(user, old(Now()), old(inbox)).after, Now())
      ensures freed || aborted || inbox == []
    {
      hide Good;
      var cb := NOBODY;
      ghost var a, replies, n := Now(), inbox, 0;
      assert replies[..0] == [] && replies[0..] == replies;
      while inbox != [] && !freed && !aborted
        invariant Partway(a, replies, n, cb) && fresh(pending.repr - old(pending.repr))
        decreases |inbox|
      {
        cb := TakeNext(cb, a, replies, n);
        n := n + 1;
      }
      TakenAllStops(user, a, replies, n);
    }

    /** All replies are taken: an error of the reader, or a disconnect that was asked for
        and has nothing left to wait for, ends the connection. */
    method Settle()
      requires Valid() && !freed && !aborted
      modifies this`flags, this`channels, this`patterns, this`obuf, this`hist, this`calls, this`freed, this`err
      modifies this`cerr, pending, pending.repr
      ensures Valid() && fresh(pending.repr - old(pending.repr))
      ensures Reached(user, Finished(Going(old(Now())), broken), Now()) && (broken ==> freed)
    {
      hide Sound, Live, Ended;
      if broken {
        Fail(ERR_PROTOCOL);
      } else if Disconnecting in flags && obuf == [] {
        DisconnectIfIdle();
      }
    }

    /** `redisProcessCallbacks`. */
    method ProcessCallbacks()
      requires Valid() && !freed && !aborted
      modifies this`flags, this`channels, this`patterns, this`obuf, this`hist, this`calls, this`freed, this`err
      modifies this`cerr, this`aborted, this`inbox, pending, pending.repr
      ensures Valid() && fresh(pending.repr - old(pending.repr))
      ensures Reached(user, Processed(user, old(Now()), old(inbox), old(broken)), Now())
      ensures freed || aborted || (inbox == [] && !broken)
    {
      hide Good, Torn, TakenAll, Finished, Processed;
      TakenAllFit(user, Now(), inbox);
      TakeAll();
      ghost var b := Now();
      if !freed && !aborted {
        Settle();
      }
      OnceTaken(user, old(Now()), old(inbox), old(broken), b, Now());
    }

    // ----------------------------------------------------------------------
    // Events

    /** Tell the user about the connection. */
    method Greet(ok: bool)
      requires Intact()
      modifies this`hist
      ensures Intact() && Now() == Told(user, old(Now()), ok)
    {
      hist := hist.(trace := hist.trace + Greeting(user.onConnect, ok));
    }

    /** `__redisAsyncHandleConnect`: the check of the socket leaves an error behind even
        while the connection is still in progress. */
    method HandleConnect(conn: ConnectResult)
      requires Valid() && !freed && !aborted && Connected !in flags
      modifies this`flags, this`channels, this`patterns, this`obuf, this`hist, this`calls, this`freed, this`err
      modifies this`cerr, this`aborted, pending, pending.repr
      ensures Valid() && fresh(pending.repr - old(pending.repr))
      ensures Reached(user, Met(user, old(Now()), conn), Now())
    {
      hide Torn, Sound, Live, Ended;
      MetGood(user, Now(), conn);
      match conn {
        case Established =>
          flags := flags + {Connected};
          Greet(true);
        case InProgress =>
          cerr := ERR_IO;
        case Refused =>
          Greeted(hist.trace, user.onConnect, false);
          Greet(false);
          Fail(ERR_IO);
      }
    }

    /** The first read or write event finds out about the connection; `up` says whether there
        is one now. */
    method Meet(conn: ConnectResult) returns (up: bool)
      requires Valid() && !freed && !aborted
      modifies this`flags, this`channels, this`patterns, this`obuf, this`hist, this`calls, this`freed, this`err
      modifies this`cerr, this`aborted, pending, pending.repr
      ensures Valid() && fresh(pending.repr - old(pending.repr))
      ensures var p := Met(user, old(Now()), conn);
        Reached(user, p, Now()) && up == (p.Going? && Connected in p.state.flags) && (up ==> !freed && !aborted)
    {
      hide Sound, Live, Ended;
      if Connected !in flags {
        HandleConnect(conn);
      }
      up := !freed && Connected in flags;
    }

    /** Process what was read. */
    method Take(replies: seq<Reply>, bad: bool)
      requires Valid() && !freed && !aborted
      modifies this, pending, pending.repr
      ensures Valid() && fresh(pending.repr - old(pending.repr))
      ensures Reached(user, Processed(user, Arrived(old(Now()), |replies|), replies, bad), Now())
      ensures freed || aborted || (inbox == [] && !broken)
    {
      hide Good, Torn, Processed;
      ghost var a := Arrived(Now(), |replies|);
      OnceArrived(Now(), |replies|);
      hist := hist.(arrivals := hist.arrivals + Arriving(|hist.accepted|, |replies|));
      assert Now() == a;
      inbox, broken := replies, bad;
      ProcessCallbacks();
    }

    /** Read: what the connection brings is processed, and an error ends the context. */
    method Receive(read: ReadResult)
      requires Valid() && !freed && !aborted
      modifies this, pending, pending.repr
      ensures Valid() && fresh(pending.repr - old(pending.repr))
      ensures Reached(user, Received(user, old(Now()), read), Now())
      ensures freed || aborted || (inbox == [] && !broken)
    {
      hide Sound, Live, Ended, Processed;
      if cerr != 0 {
        HungClosable(Now());
        DisconnectNow();
        return;
      }
      match read {
        case Nothing => Take([], false);
        case ReadError => Fail(ERR_IO);
        case EndOfFile => Fail(ERR_EOF);
        case Data(replies, bad) => Take(replies, bad);
      }
    }

    /** `redisBufferWrite`: drop what was written from the output buffer. */
    method Send(write: WriteResult)
      requires Valid() && !freed && !aborted
      modifies this`flags, this`channels, this`patterns, this`obuf, this`hist, this`calls, this`freed, this`err
      modifies this`cerr, this`aborted, pending, pending.repr
      ensures Valid() && fresh(pending.repr - old(pending.repr))
      ensures Reached(user, Written(old(Now()), write), Now())
    {
      hide Torn, Sound, Live, Ended;
      WrittenFit(Now(), write);
      if cerr != 0 {
        HungClosable(Now());
        DisconnectNow();
      } else if obuf != [] {
        match write {
          case WriteError => Fail(ERR_IO);
          case Wrote(n) =>
            var k := if n < |obuf| then n else |obuf|;
            hist := hist.(sent := hist.sent + obuf[..k]);
            obuf := obuf[k..];
        }
      }
    }

    /** `redisAsyncHandleRead`. */
    method HandleRead(conn: ConnectResult, read: ReadResult)
      requires Valid() && !freed && !aborted && inbox == [] && !broken
      modifies this, pending, pending.repr
      ensures Valid() && fresh(pending.repr - old(pending.repr))
      ensures Stepped(user, old(Now()), Readable(conn, read), Now())
      ensures freed || aborted || (inbox == [] && !broken)
    {
      hide Good, Met, Received, Torn;
      var up := Meet(conn);
      ghost var b := Now();
      if up {
        Receive(read);
      }
      OnceMet(user, old(Now()), Readable(conn, read), b, up, Now());
    }

    /** `redisAsyncHandleWrite`. */
    method HandleWrite(conn: ConnectResult, write: WriteResult)
      requires Valid() && !freed && !aborted
      modifies this`flags, this`channels, this`patterns, this`obuf, this`hist, this`calls, this`freed, this`err
      modifies this`cerr, this`aborted, pending, pending.repr
      ensures Valid() && fresh(pending.repr - old(pending.repr))
      ensures Stepped(user, old(Now()), Writable(conn, write), Now())
    {
      hide Good, Met, Written, Torn;
      var up := Meet(conn);
      ghost var b := Now();
      if up {
        Send(write);
      }
      OnceMet(user, old(Now()), Writable(conn, write), b, up, Now());
    }

    /** What the user asks for outside the callbacks. */
    method Ask(action: Action)
      requires Valid() && !freed && !aborted
      modifies this`flags, this`channels, this`patterns, this`obuf, this`hist, this`calls, this`freed, this`err
      modifies pending, pending.repr
      ensures Valid() && fresh(pending.repr - old(pending.repr))
      ensures Reached(user, Demanded(old(Now()), action), Now())
    {
      hide Torn, Sound, Live, Ended;
      DemandedFit(Now(), action);
      match action {
        case Issue(fn, privdata, argv) =>
          var ok := AsyncCommand(fn, privdata, argv);
        case Disconnect => AsyncDisconnect();
        case Free => AsyncFree();
      }
    }

    method Step(input: Input)
      requires Settled() && !freed && !aborted
      modifies this, pending, pending.repr
      ensures Settled() && fresh(pending.repr - old(pending.repr)) && Stepped(user, old(Now()), input, Now())
    {
      hide Torn, Good, Tidy;
      match input {
        case Asks(action) => Ask(action);
        case Readable(conn, read) => HandleRead(conn, read);
        case Writable(conn, write) => HandleWrite(conn, write);
      }
      TidyKept(user, old(Now()), input, Now());
      BookedKept(user, old(Now()), input, Now());
    }

    /** A run that has come to the n-th event. */
    ghost predicate Underway(a: Snapshot, inputs: seq<Input>, n: nat, states: seq<Snapshot>)
      requires n <= |inputs|
      reads this, pending, pending.repr
    {
      && Settled() && |states| == n + 1 && states[0] == a && states[n] == Now()
      && Path(user, states, inputs[..n]) && (forall i :: 0 <= i <= n ==> Proper(states[i]))
      && Achieved(user, a, inputs[..n], Now())
    }

    /** The next event of a run. */
    method StepOn(inputs: seq<Input>, n: nat, ghost a: Snapshot, ghost states: seq<Snapshot>)
      returns (ghost longer: seq<Snapshot>)
      requires n < |inputs| && Underway(a, inputs, n, states) && !freed && !aborted
      modifies this, pending, pending.repr
      ensures Underway(a, inputs, n + 1, longer) && fresh(pending.repr - old(pending.repr))
    {
      hide Proper, Path, Achieved, Stepped;
      ghost var b := Now();
      Step(inputs[n]);
      PathSnoc(user, states, inputs, n, Now());
      AchievedStep(user, a, inputs, n, b, Now());
      longer := states + [Now()];
    }

    /** What has run for ordinary commands is exactly the callbacks of the first accepted
        commands, each once and in order, the i-th with the i-th of the replies that are no
        strays, and those left over at the end without one. The callbacks of commands sent
        while subscribed have run once each, in order. Once the context is freed these are all
        of them, and nothing has run after it. */
    lemma FifoOnce()
      requires Valid()
      ensures InOrder(hist) && forall i :: 0 <= i < |hist.served| ==> hist.served[i].cb == hist.accepted[i]
      ensures RunsFrom(Invalid, hist.trace) == RunsOf(Invalid, hist.asideServed)
      ensures |hist.asideServed| <= |hist.aside|
      ensures forall i :: 0 <= i < |hist.asideServed| ==> hist.asideServed[i].cb == hist.aside[i]
      ensures hist.strays == [] ==> Given(hist.served) == hist.received
      ensures if freed then |hist.served| == |hist.accepted| && |hist.asideServed| == |hist.aside| && Ended(hist.trace)
        else |hist.served| == hist.answered && Live(hist.trace)
    {
      SoundInOrder(hist, pending.queue, pending.late);
    }

    /** A whole run of events, up to the last one or until the context is freed or an
        assertion fails. Every event does what it should, and the replies taken are those
        that were read, in order, all of them while the context lives. If no reply arrives
        before its command was accepted, none goes astray, no assertion fails, and every
        ordinary callback has run with the reply of its place. If besides there is no error
        and nobody asks to disconnect or to free, the context lives and all replies have been
        taken. */
    method Run(inputs: seq<Input>) returns (ghost states: seq<Snapshot>)
      requires Settled() && !freed && !aborted
      modifies this, pending, pending.repr
      ensures Settled() && fresh(pending.repr - old(pending.repr))
      ensures Path(user, states, inputs) && states[0] == old(Now()) && states[|states| - 1] == Now()
      ensures forall i :: 0 <= i < |states| ==> Proper(states[i])
      ensures hist.received <= old(hist.received) + ReadOf(inputs, Connected in old(flags))
      ensures freed || aborted || hist.received == old(hist.received) + ReadOf(inputs, Connected in old(flags))
      ensures InOrder(hist)
      ensures Orderly(hist) ==> hist.strays == [] && !aborted && Given(hist.served) == hist.received
      ensures Undisturbed(user, old(Now()), inputs, Now()) ==>
        !freed && hist.received == old(hist.received) + ReadOf(inputs, Connected in old(flags))
    {
      hide Stepped, Good;
      ghost var a := Now();
      states := [a];
      AchievedNothing(user, a, inputs);
      for i := 0 to |inputs|
        invariant Underway(a, inputs, i, states) && fresh(pending.repr - old(pending.repr))
      {
        if freed || aborted {
          PathEnds(user, states, inputs, i);
          AchievedEnds(user, a, inputs, i, Now());
          FifoOnce();
          return;
        }
        states := StepOn(inputs, i, a, states);
      }
      PathEnds(user, states, inputs, |inputs|);
      AchievedEnds(user, a, inputs, |inputs|, Now());
      FifoOnce();
    }
  }
}
