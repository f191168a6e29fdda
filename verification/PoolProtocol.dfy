/** The connection pool with many users at once, as interleaved steps. Between two steps of
    one user any number of steps of others may happen. Every socket that a thread looks for
    or holds counts as one user; mutexes are only ever tried, so it does not matter which
    thread is behind them. Sockets are known by their places on the list. */
module PoolProtocol {
  import opened Bytes
  import Failover

  /** Where a user is in the code: searching, at socket cur in a search that began at
      start, or with a socket. */
  datatype Local =
    | Idle
    | Trying(start: nat, cur: nat)
    | Checking(start: nat, cur: nat)
    | Connecting(start: nat, cur: nat)
    | Deciding(start: nat, cur: nat)
    | Dropping(start: nat, cur: nat)
    | Unlocking(start: nat, cur: nat)
    | Taking(cur: nat)
    | Holding(cur: nat)
    | Broken(cur: nat)
    | Releasing(cur: nat)

  datatype Sock = Sock(holder: Option<nat>, inuse: bool, connected: bool, conn: Option<nat>, backup: nat)

  /** `live` are the contexts not freed yet, with the places of their sockets. */
  datatype State = State(
    socks: seq<Sock>, lastUsed: Option<nat>, connectAfter: int,
    live: map<nat, nat>, created: nat, users: seq<Local>)

  /** How connecting ends: at the endpoint that comes after `skipped` others, or not. */
  datatype Result = Success(skipped: nat, rand: nat) | Failure(time: int)

  /** The next step of a user, with what it gets from outside. */
  datatype Event =
    | Start
    | TryLock
    | CheckInUse
    | MaybeConnect(time: int, result: Result)
    | CheckState
    | ClearInUse
    | Unlock
    | Remember
    | CommandFails
    | Reconnect(result: Result)
    | Release
    | ReleaseUnlock

  /** What the pool is set up with. */
  datatype Setup = Setup(endpoints: nat, delay: int)

  type Pool = p: Setup | p.endpoints > 0 witness Setup(1, 0)

  /** The place that follows in the circle. */
  function After(n: nat, i: nat): nat {
    if i + 1 < n then i + 1 else 0
  }

  /** k places in the circle, from i on. */
  function Circle(n: nat, i: nat, k: nat): (c: seq<nat>)
    ensures |c| == k
    decreases k
  {
    if k == 0 then [] else [i] + Circle(n, After(n, i), k - 1)
  }

  lemma {:induction false} CircleAt(n: nat, i: nat, k: nat, j: nat)
    requires i < n && j < k <= n
    ensures Circle(n, i, k)[j] == if i + j < n then i + j else i + j - n
    decreases j
  {
    if j > 0 {
      CircleAt(n, After(n, i), k - 1, j - 1);
    }
  }

  /** Up to one whole round visits no place twice. */
  lemma CircleOnce(n: nat, i: nat, k: nat)
    requires i < n && k <= n
    ensures forall a, b :: 0 <= a < b < k ==> Circle(n, i, k)[a] != Circle(n, i, k)[b]
  {
    forall a, b | 0 <= a < b < k
      ensures Circle(n, i, k)[a] != Circle(n, i, k)[b]
    {
      CircleAt(n, i, k, a);
      CircleAt(n, i, k, b);
    }
  }

  /** The search goes on to the next socket in the circle, or ends without one. */
  function GoOn(n: nat, start: nat, cur: nat): Local
    requires cur < n
  {
    if After(n, cur) == start then Idle else Trying(start, After(n, cur))
  }

  /** User t moves on. */
  function At(s: State, t: nat, l: Local): State
    requires t < |s.users|
  {
    s.(users := s.users[t := l])
  }

  /** User t moves on, and socket i changes. */
  function Put(s: State, t: nat, l: Local, i: nat, k: Sock): State
    requires t < |s.users| && i < |s.socks|
  {
    s.(users := s.users[t := l], socks := s.socks[i := k])
  }

  /** User t connects socket i, or fails to, and moves on. */
  function Connected(p: Pool, s: State, t: nat, l: Local, i: nat, r: Result): State
    requires t < |s.users| && i < |s.socks|
  {
    var k := s.socks[i];
    match r
    case Success(skipped, rand) =>
      Put(s, t, l, i, k.(connected := true, conn := Some(s.created),
                         backup := Failover.NextBackup((k.backup + skipped) % p.endpoints, rand, p.endpoints)))
        .(live := s.live[s.created := i], created := s.created + 1)
    case Failure(time) =>
      Put(s, t, l, i, k.(connected := false, conn := None)).(connectAfter := time + p.delay)
  }

  predicate Searching(l: Local) {
    l.Trying? || l.Checking? || l.Connecting? || l.Deciding? || l.Dropping? || l.Unlocking?
  }

  function NextSearching(p: Pool, s: State, t: nat, e: Event): Option<State>
    requires t < |s.users| && Searching(s.users[t]) && s.users[t].cur < |s.socks|
  {
    var start, i := s.users[t].start, s.users[t].cur;
    match s.users[t]
    case Trying(_, _) =>
      if e != TryLock then None
      else if s.socks[i].holder.Some? then Some(At(s, t, GoOn(|s.socks|, start, i)))
      else Some(Put(s, t, Checking(start, i), i, s.socks[i].(holder := Some(t))))
    case Checking(_, _) =>
      if e != CheckInUse then None
      else if s.socks[i].inuse then Some(At(s, t, Unlocking(start, i)))
      else Some(Put(s, t, Connecting(start, i), i, s.socks[i].(inuse := true)))
    case Connecting(_, _) =>
      if !e.MaybeConnect? then None
      else if !s.socks[i].connected && e.time > s.connectAfter then
        Some(Connected(p, s, t, Deciding(start, i), i, e.result))
      else Some(At(s, t, Deciding(start, i)))
    case Deciding(_, _) =>
      if e != CheckState then None
      else Some(At(s, t, if s.socks[i].connected then Taking(i) else Dropping(start, i)))
    case Dropping(_, _) =>
      if e != ClearInUse then None
      else Some(Put(s, t, Unlocking(start, i), i, s.socks[i].(inuse := false)))
    case Unlocking(_, _) =>
      if e != Unlock then None
      else Some(Put(s, t, GoOn(|s.socks|, start, i), i, s.socks[i].(holder := None)))
  }

  function NextUsing(p: Pool, s: State, t: nat, e: Event): Option<State>
    requires t < |s.users| && !Searching(s.users[t]) && !s.users[t].Idle? && s.users[t].cur < |s.socks|
  {
    var i := s.users[t].cur;
    match s.users[t]
    case Taking(_) =>
      if e != Remember then None
      else Some(At(s, t, Holding(i)).(lastUsed := if i + 1 < |s.socks| then Some(i + 1) else None))
    case Holding(_) =>
      if e == Release then Some(Put(s, t, Releasing(i), i, s.socks[i].(inuse := false)))
      else if e == CommandFails && s.socks[i].connected && s.socks[i].conn.Some? then
        Some(At(s, t, Broken(i)).(live := s.live - {s.socks[i].conn.value}))
      else None
    case Broken(_) =>
      if !e.Reconnect? then None
      else Some(Connected(p, s, t, Holding(i), i, e.result))
    case Releasing(_) =>
      if e != ReleaseUnlock then None
      else Some(Put(s, t, Idle, i, s.socks[i].(holder := None)))
  }

  /** One step of user t; None if that is not the step that comes next. */
  function Next(p: Pool, s: State, t: nat, e: Event): Option<State> {
    if t >= |s.users| then None
    else if s.users[t].Idle? then
      if e != Start then None
      else if s.lastUsed.Some? then Some(At(s, t, Trying(s.lastUsed.value, s.lastUsed.value)))
      else if |s.socks| > 0 then Some(At(s, t, Trying(0, 0)))
      else Some(s)
    else if s.users[t].cur >= |s.socks| then None
    else if Searching(s.users[t]) then NextSearching(p, s, t, e)
    else NextUsing(p, s, t, e)
  }

  // --------------------------------------------------------------------------
  // What always holds

  /** The socket whose mutex a user holds. */
  function Held(l: Local): Option<nat> {
    if l.Idle? || l.Trying? then None else Some(l.cur)
  }

  /** Where a user is while the socket counts as in use. */
  predicate Uses(l: Local) {
    l.Connecting? || l.Deciding? || l.Dropping? || l.Taking? || l.Holding? || l.Broken?
  }

  predicate PlaceIn(n: nat, l: Local) {
    (!l.Idle? ==> l.cur < n) && (Searching(l) ==> l.start < n)
  }

  /** All places are places on the list. */
  predicate InRange(p: Pool, s: State) {
    && (s.lastUsed.Some? ==> s.lastUsed.value < |s.socks|)
    && (forall t :: 0 <= t < |s.users| ==> PlaceIn(|s.socks|, s.users[t]))
    && (forall i :: 0 <= i < |s.socks| ==> s.socks[i].backup < p.endpoints)
  }

  /** The users that hold a socket are the holders of its mutex. */
  predicate Locks(s: State) {
    && (forall t :: 0 <= t < |s.users| && Held(s.users[t]).Some? ==>
         s.users[t].cur < |s.socks| && s.socks[s.users[t].cur].holder == Some(t))
    && (forall i :: 0 <= i < |s.socks| && s.socks[i].holder.Some? ==>
         s.socks[i].holder.value < |s.users| && Held(s.users[s.socks[i].holder.value]) == Some(i))
  }

  predicate InUseAt(s: State, i: nat)
    requires i < |s.socks|
  {
    var h := s.socks[i].holder;
    s.socks[i].inuse == (h.Some? && h.value < |s.users| && Uses(s.users[h.value]))
  }

  /** A socket counts as in use just while its holder uses it. */
  predicate InUse(s: State) {
    forall i :: 0 <= i < |s.socks| ==> InUseAt(s, i)
  }

  /** The context of the socket was freed, and it has not been connected again yet. */
  predicate Dangling(s: State, i: nat)
    requires i < |s.socks|
  {
    s.socks[i].holder.Some? && s.socks[i].holder.value < |s.users| && s.users[s.socks[i].holder.value].Broken?
  }

  predicate ContextAt(s: State, i: nat)
    requires i < |s.socks|
  {
    !Dangling(s, i) ==>
      && s.socks[i].connected == s.socks[i].conn.Some?
      && (s.socks[i].conn.Some? ==> s.socks[i].conn.value in s.live && s.live[s.socks[i].conn.value] == i)
  }

  predicate LiveAt(s: State, c: nat)
    requires c in s.live
  {
    c < s.created && s.live[c] < |s.socks| && !Dangling(s, s.live[c]) && s.socks[s.live[c]].conn == Some(c)
  }

  /** The live contexts are those of the connected sockets, one each. */
  predicate Contexts(s: State) {
    && (forall i :: 0 <= i < |s.socks| ==> ContextAt(s, i))
    && (forall c :: c in s.live ==> LiveAt(s, c))
  }

  predicate Inv(p: Pool, s: State) {
    InRange(p, s) && Locks(s) && InUse(s) && Contexts(s)
  }

  // --------------------------------------------------------------------------
  // Every step keeps it

  /** What a step of user t does to the users and to the sockets: it moves to l, and at
      most socket i, which it holds then or before, becomes k. */
  predicate Moves(s: State, s': State, t: nat, l: Local, i: nat, k: Sock) {
    && t < |s.users| && s'.users == s.users[t := l]
    && i < |s.socks| && s'.socks == s.socks[i := k]
    && (Held(s.users[t]) == None || (Held(s.users[t]) == Some(i) && s.socks[i].holder == Some(t)))
    && (if Held(l).Some? then
          Held(l) == Some(i) && k.holder == Some(t) && k.inuse == Uses(l)
          && (s.socks[i].holder.None? || s.socks[i].holder == Some(t))
        else if Held(s.users[t]).Some? then k.holder == None && !k.inuse
        else k.holder == s.socks[i].holder && k.inuse == s.socks[i].inuse)
  }

  lemma LocksMove(s: State, s': State, t: nat, l: Local, i: nat, k: Sock)
    requires Locks(s) && Moves(s, s', t, l, i, k)
    ensures Locks(s')
  {
    forall u | 0 <= u < |s'.users| && Held(s'.users[u]).Some?
      ensures s'.users[u].cur < |s'.socks| && s'.socks[s'.users[u].cur].holder == Some(u)
    {
      assert u != t ==> s'.users[u] == s.users[u];
    }
    forall j | 0 <= j < |s'.socks| && s'.socks[j].holder.Some?
      ensures s'.socks[j].holder.value < |s'.users| && Held(s'.users[s'.socks[j].holder.value]) == Some(j)
    {
      assert j != i ==> s'.socks[j] == s.socks[j];
    }
  }

  lemma InUseMove(s: State, s': State, t: nat, l: Local, i: nat, k: Sock)
    requires Locks(s) && InUse(s) && Moves(s, s', t, l, i, k)
    ensures InUse(s')
  {
    forall j | 0 <= j < |s'.socks|
      ensures InUseAt(s', j)
    {
      assert InUseAt(s, j);
      assert j != i ==> s'.socks[j] == s.socks[j];
    }
  }

  lemma DanglingMove(s: State, s': State, t: nat, l: Local, i: nat, k: Sock, j: nat)
    requires Locks(s) && Moves(s, s', t, l, i, k) && j < |s.socks|
    ensures Dangling(s', j) == if j == i && (Held(l).Some? || Held(s.users[t]).Some?) then l.Broken? else Dangling(s, j)
  {
    assert j != i ==> s'.socks[j] == s.socks[j];
  }

  /** A move that leaves contexts alone. */
  lemma ContextsMove(s: State, s': State, t: nat, l: Local, i: nat, k: Sock)
    requires Locks(s) && Contexts(s) && Moves(s, s', t, l, i, k)
    requires s'.live == s.live && s'.created == s.created
    requires k.connected == s.socks[i].connected && k.conn == s.socks[i].conn
    requires l.Broken? == s.users[t].Broken?
    ensures Contexts(s')
  {
    forall j | 0 <= j < |s'.socks|
      ensures Dangling(s', j) == Dangling(s, j) && ContextAt(s', j)
    {
      DanglingMove(s, s', t, l, i, k, j);
      assert ContextAt(s, j);
    }
    forall c | c in s'.live
      ensures LiveAt(s', c)
    {
      assert LiveAt(s, c);
    }
  }

  /** A socket without a context gets a new one, or none. */
  lemma ContextsConnect(s: State, s': State, t: nat, l: Local, i: nat, k: Sock)
    requires Locks(s) && Contexts(s) && Moves(s, s', t, l, i, k)
    requires Held(s.users[t]) == Some(i) && Held(l) == Some(i) && !l.Broken?
    requires s.users[t].Broken? || !s.socks[i].connected
    requires s'.created >= s.created && k.connected == k.conn.Some?
    requires if k.connected
      then k.conn == Some(s.created) && s'.live == s.live[s.created := i] && s'.created == s.created + 1
      else s'.live == s.live
    ensures Contexts(s')
  {
    forall c | c in s.live
      ensures LiveAt(s, c) && s.live[c] != i
    {
      assert LiveAt(s, c) && ContextAt(s, i);
    }
    forall j | 0 <= j < |s'.socks|
      ensures ContextAt(s', j)
    {
      DanglingMove(s, s', t, l, i, k, j);
      assert ContextAt(s, j);
    }
    forall c | c in s'.live
      ensures LiveAt(s', c)
    {
      if c in s.live {
        DanglingMove(s, s', t, l, i, k, s.live[c]);
      } else {
        DanglingMove(s, s', t, l, i, k, i);
      }
    }
  }

  /** The context of a socket is freed. */
  lemma ContextsBreak(s: State, s': State, t: nat, l: Local, i: nat, k: Sock)
    requires Locks(s) && Contexts(s) && Moves(s, s', t, l, i, k)
    requires Held(s.users[t]) == Some(i) && l == Broken(i) && !s.users[t].Broken?
    requires s.socks[i].conn.Some? && s'.live == s.live - {s.socks[i].conn.value} && s'.created == s.created
    ensures Contexts(s')
  {
    assert ContextAt(s, i);
    forall j | 0 <= j < |s'.socks|
      ensures ContextAt(s', j)
    {
      DanglingMove(s, s', t, l, i, k, j);
      assert ContextAt(s, j);
    }
    forall c | c in s'.live
      ensures LiveAt(s', c)
    {
      assert LiveAt(s, c);
      DanglingMove(s, s', t, l, i, k, s.live[c]);
    }
  }

  /** What the invariant says about user t and socket i: if t holds i, so does its mutex
      say, and i counts as in use just while t uses it. */
  predicate Knows(s: State, t: nat, i: nat) {
    && t < |s.users| && i < |s.socks|
    && (Held(s.users[t]) == Some(i) ==> s.socks[i].holder == Some(t) && s.socks[i].inuse == Uses(s.users[t]))
    && (s.socks[i].holder == None ==> !s.socks[i].inuse)
  }

  lemma InvKnows(s: State, t: nat, i: nat)
    requires Locks(s) && InUse(s) && t < |s.users| && i < |s.socks|
    ensures Knows(s, t, i)
  {
    assert InUseAt(s, i);
  }

  lemma SearchMoves(p: Pool, s: State, t: nat, e: Event, i: nat)
    requires Knows(s, t, i) && Searching(s.users[t]) && i == s.users[t].cur && NextSearching(p, s, t, e).Some?
    ensures var s' := NextSearching(p, s, t, e).value; Moves(s, s', t, s'.users[t], i, s'.socks[i])
  {
  }

  lemma UseMoves(p: Pool, s: State, t: nat, e: Event, i: nat)
    requires Knows(s, t, i) && Held(s.users[t]) == Some(i)
    requires !Searching(s.users[t]) && NextUsing(p, s, t, e).Some?
    ensures var s' := NextUsing(p, s, t, e).value; Moves(s, s', t, s'.users[t], i, s'.socks[i])
  {
  }

  /** The socket that a step is about. */
  function Place(s: State, t: nat): nat
    requires t < |s.users|
  {
    if s.users[t].Idle? then 0 else s.users[t].cur
  }

  /** Every step is such a move. */
  lemma StepMoves(p: Pool, s: State, t: nat, e: Event)
    requires Inv(p, s) && Next(p, s, t, e).Some?
    ensures var s' := Next(p, s, t, e).value;
      s' == s || (Place(s, t) < |s.socks| && |s'.users| == |s.users| && |s'.socks| == |s.socks|
        && Moves(s, s', t, s'.users[t], Place(s, t), s'.socks[Place(s, t)]))
  {
    var i := Place(s, t);
    if Searching(s.users[t]) {
      InvKnows(s, t, i);
      SearchMoves(p, s, t, e, i);
    } else if !s.users[t].Idle? {
      InvKnows(s, t, i);
      UseMoves(p, s, t, e, i);
    } else if i < |s.socks| {
      assert s.socks[i := s.socks[i]] == s.socks;
    }
  }

  predicate Placed(p: Pool, s: State, t: nat, s': State)
    requires t < |s.users|
  {
    && |s'.users| == |s.users| && |s'.socks| == |s.socks|
    && PlaceIn(|s.socks|, s'.users[t]) && (s'.lastUsed.Some? ==> s'.lastUsed.value < |s.socks|)
    && (Place(s, t) < |s.socks| ==> s'.socks[Place(s, t)].backup < p.endpoints)
  }

  lemma SearchPlaces(p: Pool, s: State, t: nat, e: Event)
    requires InRange(p, s) && t < |s.users| && Searching(s.users[t]) && s.users[t].cur < |s.socks|
    requires NextSearching(p, s, t, e).Some?
    ensures Placed(p, s, t, NextSearching(p, s, t, e).value)
  {
    assert PlaceIn(|s.socks|, s.users[t]);
  }

  lemma StepPlaces(p: Pool, s: State, t: nat, e: Event)
    requires InRange(p, s) && Next(p, s, t, e).Some?
    ensures Placed(p, s, t, Next(p, s, t, e).value)
  {
    assert PlaceIn(|s.socks|, s.users[t]);
    if Searching(s.users[t]) {
      SearchPlaces(p, s, t, e);
    }
  }

  /** Places stay places. */
  lemma RangeKept(p: Pool, s: State, t: nat, e: Event)
    requires Inv(p, s) && Next(p, s, t, e).Some?
    ensures InRange(p, Next(p, s, t, e).value)
  {
    StepMoves(p, s, t, e);
    StepPlaces(p, s, t, e);
  }

  lemma SearchContexts(p: Pool, s: State, t: nat, e: Event, i: nat)
    requires Inv(p, s) && t < |s.users| && Searching(s.users[t]) && i == s.users[t].cur
    requires NextSearching(p, s, t, e).Some?
    ensures Contexts(NextSearching(p, s, t, e).value)
  {
    InvKnows(s, t, i);
    SearchMoves(p, s, t, e, i);
    var s' := NextSearching(p, s, t, e).value;
    if s.users[t].Connecting? && !s.socks[i].connected && e.time > s.connectAfter {
      ContextsConnect(s, s', t, s'.users[t], i, s'.socks[i]);
    } else {
      ContextsMove(s, s', t, s'.users[t], i, s'.socks[i]);
    }
  }

  lemma UseContexts(p: Pool, s: State, t: nat, e: Event, i: nat)
    requires Inv(p, s) && t < |s.users| && Held(s.users[t]) == Some(i)
    requires !Searching(s.users[t]) && NextUsing(p, s, t, e).Some?
    ensures Contexts(NextUsing(p, s, t, e).value)
  {
    InvKnows(s, t, i);
    UseMoves(p, s, t, e, i);
    var s' := NextUsing(p, s, t, e).value;
    if s.users[t].Broken? {
      ContextsConnect(s, s', t, s'.users[t], i, s'.socks[i]);
    } else if e == CommandFails {
      ContextsBreak(s, s', t, s'.users[t], i, s'.socks[i]);
    } else {
      ContextsMove(s, s', t, s'.users[t], i, s'.socks[i]);
    }
  }

  lemma ContextsKept(p: Pool, s: State, t: nat, e: Event)
    requires Inv(p, s) && Next(p, s, t, e).Some?
    ensures Contexts(Next(p, s, t, e).value)
  {
    var s' := Next(p, s, t, e).value;
    var i := Place(s, t);
    if Searching(s.users[t]) {
      SearchContexts(p, s, t, e, i);
    } else if !s.users[t].Idle? {
      UseContexts(p, s, t, e, i);
    } else if s' != s {
      StepMoves(p, s, t, e);
      ContextsMove(s, s', t, s'.users[t], i, s'.socks[i]);
    }
  }

  /** Whatever step is taken, the invariant goes on holding. */
  lemma StepKept(p: Pool, s: State, t: nat, e: Event)
    requires Inv(p, s) && Next(p, s, t, e).Some?
    ensures Inv(p, Next(p, s, t, e).value)
  {
    var s' := Next(p, s, t, e).value;
    var i := Place(s, t);
    StepMoves(p, s, t, e);
    if s' != s {
      LocksMove(s, s', t, s'.users[t], i, s'.socks[i]);
      InUseMove(s, s', t, s'.users[t], i, s'.socks[i]);
    }
    RangeKept(p, s, t, e);
    ContextsKept(p, s, t, e);
  }

  // --------------------------------------------------------------------------
  // Whole runs

  datatype Step = Step(user: nat, event: Event)

  /** The state after a run; None if some step of it cannot be taken. */
  function Run(p: Pool, s: State, run: seq<Step>): Option<State>
    decreases |run|
  {
    if run == [] then Some(s)
    else
      var s' := Next(p, s, run[0].user, run[0].event);
      if s'.Some? then Run(p, s'.value, run[1..]) else None
  }

  /** A pool with nobody in it: nothing is locked, and every socket has its own context or
      none. */
  predicate Fresh(p: Pool, s: State) {
    && (forall t :: 0 <= t < |s.users| ==> s.users[t].Idle?)
    && (forall i :: 0 <= i < |s.socks| ==> s.socks[i].holder == None && !s.socks[i].inuse)
    && (forall i :: 0 <= i < |s.socks| ==> s.socks[i].backup < p.endpoints)
    && s.lastUsed == None && Contexts(s)
  }

  lemma {:induction false} RunKept(p: Pool, s: State, run: seq<Step>)
    requires Inv(p, s) && Run(p, s, run).Some?
    ensures Inv(p, Run(p, s, run).value)
    decreases |run|
  {
    if run != [] {
      StepKept(p, s, run[0].user, run[0].event);
      RunKept(p, Next(p, s, run[0].user, run[0].event).value, run[1..]);
    }
  }

  predicate Exclusive(s: State) {
    forall t, u :: 0 <= t < |s.users| && 0 <= u < |s.users| && Held(s.users[t]).Some? ==>
      Held(s.users[t]) == Held(s.users[u]) ==> t == u
  }

  predicate Guarded(s: State) {
    forall i :: 0 <= i < |s.socks| && s.socks[i].inuse ==> s.socks[i].holder.Some?
  }

  predicate Conserved(s: State) {
    && (forall c :: c in s.live ==> s.live[c] < |s.socks| && s.socks[s.live[c]].conn == Some(c))
    && (forall i :: 0 <= i < |s.socks| && s.socks[i].connected && !Dangling(s, i) ==>
         s.socks[i].conn.Some? && s.socks[i].conn.value in s.live && s.live[s.socks[i].conn.value] == i)
  }

  lemma InvMeans(p: Pool, s: State)
    requires Inv(p, s)
    ensures Exclusive(s) && Guarded(s) && Conserved(s)
  {
    forall i | 0 <= i < |s.socks| && s.socks[i].inuse
      ensures s.socks[i].holder.Some?
    {
      assert InUseAt(s, i);
    }
    forall i | 0 <= i < |s.socks| && s.socks[i].connected && !Dangling(s, i)
      ensures s.socks[i].conn.Some? && s.socks[i].conn.value in s.live && s.live[s.socks[i].conn.value] == i
    {
      assert ContextAt(s, i);
    }
    forall c | c in s.live
      ensures s.live[c] < |s.socks| && s.socks[s.live[c]].conn == Some(c)
    {
      assert LiveAt(s, c);
    }
  }

  /** In every interleaving, from a fresh pool on: no socket is with two users, sockets in
      use are locked and the mutexes that are free belong to sockets that are not in use,
      the last socket used is null or on the list, and the live contexts are those of the
      connected sockets, no two sharing one. */
  lemma Safety(p: Pool, s: State, run: seq<Step>)
    requires Fresh(p, s) && Run(p, s, run).Some?
    ensures var s' := Run(p, s, run).value; Inv(p, s') && Exclusive(s') && Guarded(s') && Conserved(s')
    ensures var last := Run(p, s, run).value.lastUsed; last.Some? ==> last.value < |Run(p, s, run).value.socks|
  {
    RunKept(p, s, run);
    InvMeans(p, Run(p, s, run).value);
  }

  predicate HolderChanges(s: State, s': State, t: nat, e: Event, i: nat)
    requires i < |s.socks|
  {
    |s'.socks| == |s.socks| && (s'.socks[i] != s.socks[i] ==>
      if e == TryLock then s.socks[i].holder == None && s'.socks[i] == s.socks[i].(holder := Some(t))
      else s.socks[i].holder == Some(t))
  }

  lemma SearchChanges(p: Pool, s: State, t: nat, e: Event, i: nat)
    requires t < |s.users| && Searching(s.users[t]) && Knows(s, t, s.users[t].cur)
    requires NextSearching(p, s, t, e).Some? && i < |s.socks|
    ensures HolderChanges(s, NextSearching(p, s, t, e).value, t, e, i)
  {
  }

  lemma UseChanges(p: Pool, s: State, t: nat, e: Event, i: nat)
    requires t < |s.users| && !Searching(s.users[t]) && !s.users[t].Idle? && Knows(s, t, s.users[t].cur)
    requires NextUsing(p, s, t, e).Some? && i < |s.socks|
    ensures HolderChanges(s, NextUsing(p, s, t, e).value, t, e, i)
  {
  }

  /** Whatever a step changes in a socket, other than taking its free mutex, only the
      holder of the mutex changes. */
  lemma OnlyHolderChanges(p: Pool, s: State, t: nat, e: Event, i: nat)
    requires Inv(p, s) && Next(p, s, t, e).Some? && i < |s.socks|
    ensures var s' := Next(p, s, t, e).value;
      |s'.socks| == |s.socks| && (s'.socks[i] != s.socks[i] ==>
        if e == TryLock then s.socks[i].holder == None && s'.socks[i] == s.socks[i].(holder := Some(t))
        else s.socks[i].holder == Some(t))
  {
    if !s.users[t].Idle? {
      InvKnows(s, t, s.users[t].cur);
    }
    if Searching(s.users[t]) {
      SearchChanges(p, s, t, e, i);
    } else if !s.users[t].Idle? {
      UseChanges(p, s, t, e, i);
    }
  }

  /** Who gets a mutex finds the socket not in use. */
  lemma TryLockFindsFree(p: Pool, s: State, t: nat)
    requires Inv(p, s) && t < |s.users| && s.users[t].Checking?
    ensures s.users[t].cur < |s.socks| && !s.socks[s.users[t].cur].inuse
    ensures Next(p, s, t, CheckInUse).value.users[t] == Connecting(s.users[t].start, s.users[t].cur)
  {
    assert InUseAt(s, s.users[t].cur);
  }

  /** A command is only sent over a context that has not been freed, and so none is freed
      twice. */
  lemma CommandsUseLive(p: Pool, s: State, t: nat)
    requires Inv(p, s) && t < |s.users| && s.users[t].Holding?
    ensures var k := s.socks[s.users[t].cur];
      k.connected ==> k.conn.Some? && k.conn.value in s.live && Next(p, s, t, CommandFails).Some?
  {
    assert ContextAt(s, s.users[t].cur);
  }

  /** Nobody ever waits: everyone has a next step, whatever the others do. */
  lemma NobodyWaits(p: Pool, s: State, t: nat)
    requires Inv(p, s) && t < |s.users|
    ensures exists e :: Next(p, s, t, e).Some?
  {
    assert PlaceIn(|s.socks|, s.users[t]);
    var e := match s.users[t]
      case Idle => Start
      case Trying(_, _) => TryLock
      case Checking(_, _) => CheckInUse
      case Connecting(_, _) => MaybeConnect(0, Failure(0))
      case Deciding(_, _) => CheckState
      case Dropping(_, _) => ClearInUse
      case Unlocking(_, _) => Unlock
      case Taking(_) => Remember
      case Holding(_) => Release
      case Broken(_) => Reconnect(Failure(0))
      case Releasing(_) => ReleaseUnlock;
    assert Next(p, s, t, e).Some?;
  }

  // --------------------------------------------------------------------------
  // A search ends

  /** How many sockets a search has still to visit, with the one it is at. */
  function Ahead(n: nat, l: Local): nat
    requires PlaceIn(n, l) && Searching(l)
  {
    if l.cur < l.start then l.start - l.cur else l.start + n - l.cur
  }

  /** How many steps it has at most. */
  function Steps(n: nat, l: Local): nat
    requires PlaceIn(n, l)
  {
    if !Searching(l) then 0
    else 6 * (Ahead(n, l) - 1) + (match l
      case Trying(_, _) => 6
      case Checking(_, _) => 5
      case Connecting(_, _) => 4
      case Deciding(_, _) => 3
      case Dropping(_, _) => 2
      case Unlocking(_, _) => 1)
  }

  /** How many mutexes it has at most to try. */
  function Tries(n: nat, l: Local): nat
    requires PlaceIn(n, l)
  {
    if !Searching(l) then 0 else if l.Trying? then Ahead(n, l) else Ahead(n, l) - 1
  }

  /** The socket that a search tries next. */
  function Upcoming(n: nat, l: Local): nat
    requires PlaceIn(n, l) && Searching(l)
  {
    if l.Trying? then l.cur else After(n, l.cur)
  }

  /** A step of its own brings the search nearer to its end, and trying a mutex is one
      socket less to try. */
  lemma OwnStep(p: Pool, s: State, t: nat, e: Event)
    requires InRange(p, s) && Next(p, s, t, e).Some? && Searching(s.users[t])
    ensures var l, l', n := s.users[t], Next(p, s, t, e).value.users[t], |s.socks|;
      && PlaceIn(n, l') && Steps(n, l') < Steps(n, l)
      && Tries(n, l') + (if e == TryLock then 1 else 0) <= Tries(n, l)
      && (Searching(l') ==> Upcoming(n, l') == if e == TryLock then After(n, Upcoming(n, l)) else Upcoming(n, l))
  {
    assert PlaceIn(|s.socks|, s.users[t]);
  }

  /** User t searches all through the run. */
  predicate SearchesThrough(p: Pool, s: State, run: seq<Step>, t: nat)
    decreases |run|
  {
    && t < |s.users| && Searching(s.users[t])
    && (run == [] ||
        (Next(p, s, run[0].user, run[0].event).Some?
         && SearchesThrough(p, Next(p, s, run[0].user, run[0].event).value, run[1..], t)))
  }

  function StepsOf(run: seq<Step>, t: nat): nat {
    if run == [] then 0 else (if run[0].user == t then 1 else 0) + StepsOf(run[1..], t)
  }

  /** The sockets whose mutexes user t tries in a run. */
  function TriedBy(p: Pool, s: State, run: seq<Step>, t: nat): seq<nat>
    requires SearchesThrough(p, s, run, t)
    decreases |run|
  {
    if run == [] then []
    else
      (if run[0].user == t && run[0].event == TryLock then [s.users[t].cur] else [])
      + TriedBy(p, Next(p, s, run[0].user, run[0].event).value, run[1..], t)
  }

  /** One step nearer to the end of the search, if it was the user's own, and one socket, if
      its mutex was tried. */
  predicate Nearer(n: nat, l: Local, l': Local, own: bool, tried: bool)
    requires PlaceIn(n, l) && PlaceIn(n, l') && Searching(l)
  {
    && Steps(n, l') + (if own then 1 else 0) <= Steps(n, l)
    && Tries(n, l') + (if tried then 1 else 0) <= Tries(n, l)
    && (Searching(l') ==> Upcoming(n, l') == if tried then After(n, Upcoming(n, l)) else Upcoming(n, l))
    && (tried ==> Upcoming(n, l) == l.cur)
  }

  /** Any step of anyone: steps, tries and the next socket to try of a user who searches
      before and after. */
  lemma AnyStep(p: Pool, s: State, u: nat, e: Event, t: nat)
    requires Inv(p, s) && Next(p, s, u, e).Some? && t < |s.users| && Searching(s.users[t])
    ensures var s', n := Next(p, s, u, e).value, |s.socks|;
      && |s'.socks| == n && |s'.users| == |s.users| && Inv(p, s')
      && PlaceIn(n, s.users[t]) && PlaceIn(n, s'.users[t])
      && Nearer(n, s.users[t], s'.users[t], u == t, u == t && e == TryLock)
  {
    StepKept(p, s, u, e);
    StepMoves(p, s, u, e);
    assert PlaceIn(|s.socks|, s.users[t]);
    if u == t {
      OwnStep(p, s, t, e);
    }
  }

  lemma {:induction false} SearchBounded(p: Pool, s: State, run: seq<Step>, t: nat)
    requires Inv(p, s) && SearchesThrough(p, s, run, t)
    ensures PlaceIn(|s.socks|, s.users[t])
    ensures StepsOf(run, t) <= Steps(|s.socks|, s.users[t])
    ensures var tried := TriedBy(p, s, run, t);
      |tried| <= Tries(|s.socks|, s.users[t]) && tried == Circle(|s.socks|, Upcoming(|s.socks|, s.users[t]), |tried|)
    decreases |run|
  {
    assert PlaceIn(|s.socks|, s.users[t]);
    if run != [] {
      var u, e := run[0].user, run[0].event;
      AnyStep(p, s, u, e, t);
      SearchBounded(p, Next(p, s, u, e).value, run[1..], t);
    }
  }

  /** However the others run, a search takes at most six steps for each socket of the pool;
      the mutexes it tries are those of the sockets in the order of the circle, none of them
      twice. */
  lemma SearchEnds(p: Pool, s: State, run: seq<Step>, t: nat, i: nat)
    requires Inv(p, s) && SearchesThrough(p, s, run, t) && s.users[t] == Trying(i, i)
    ensures StepsOf(run, t) <= 6 * |s.socks|
    ensures var tried := TriedBy(p, s, run, t);
      && i < |s.socks| && |tried| <= |s.socks| && tried == Circle(|s.socks|, i, |tried|)
      && forall a, b :: 0 <= a < b < |tried| ==> tried[a] != tried[b]
  {
    SearchBounded(p, s, run, t);
    CircleOnce(|s.socks|, i, |TriedBy(p, s, run, t)|);
  }

  // --------------------------------------------------------------------------
  // A search that ends without a socket

  /** The socket that a step of user t finds unfit: its mutex is held, or it is not connected
      after it could have been. */
  function MissedAt(s: State, t: nat, e: Event): seq<nat> {
    if t < |s.users| && Searching(s.users[t]) && s.users[t].cur < |s.socks| then
      var k := s.socks[s.users[t].cur];
      if (e == TryLock && k.holder.Some?) || (e == CheckState && !k.connected) then [s.users[t].cur] else []
    else []
  }

  /** How many sockets a search has still to find unfit, before it ends without one. */
  function Left(n: nat, l: Local): nat
    requires PlaceIn(n, l)
  {
    if !Searching(l) then 0 else if l.Dropping? || l.Unlocking? then Ahead(n, l) - 1 else Ahead(n, l)
  }

  /** The next of them. */
  function NextMiss(n: nat, l: Local): nat
    requires PlaceIn(n, l) && Searching(l)
  {
    if l.Dropping? || l.Unlocking? then After(n, l.cur) else l.cur
  }

  /** A step of a search that goes on, or ends without a socket, takes the next one off. */
  lemma MissStep(p: Pool, s: State, t: nat, e: Event)
    requires Inv(p, s) && Next(p, s, t, e).Some? && Searching(s.users[t])
    ensures var l, l', n := s.users[t], Next(p, s, t, e).value.users[t], |s.socks|;
      && PlaceIn(n, l) && PlaceIn(n, l') && l.cur < n
      && (Searching(l') || l' == Idle ==>
           && Left(n, l') == Left(n, l) - |MissedAt(s, t, e)|
           && (MissedAt(s, t, e) != [] ==> MissedAt(s, t, e) == [NextMiss(n, l)])
           && (Searching(l') ==>
                NextMiss(n, l') == if MissedAt(s, t, e) == [] then NextMiss(n, l) else After(n, NextMiss(n, l))))
  {
    assert PlaceIn(|s.socks|, s.users[t]);
    if s.users[t].Checking? {
      TryLockFindsFree(p, s, t);
    }
  }

  /** The sockets that user t finds unfit in a run. */
  function MissedBy(p: Pool, s: State, run: seq<Step>, t: nat): seq<nat>
    requires SearchesThrough(p, s, run, t)
    decreases |run|
  {
    if run == [] then []
    else
      (if run[0].user == t then MissedAt(s, t, run[0].event) else [])
      + MissedBy(p, Next(p, s, run[0].user, run[0].event).value, run[1..], t)
  }

  lemma {:induction false} SearchRuns(p: Pool, s: State, run: seq<Step>, t: nat)
    requires Inv(p, s) && SearchesThrough(p, s, run, t)
    ensures Run(p, s, run).Some?
    ensures var s' := Run(p, s, run).value;
      Inv(p, s') && |s'.socks| == |s.socks| && t < |s'.users| && Searching(s'.users[t])
    decreases |run|
  {
    if run != [] {
      AnyStep(p, s, run[0].user, run[0].event, t);
      SearchRuns(p, Next(p, s, run[0].user, run[0].event).value, run[1..], t);
    }
  }

  lemma CircleCons(n: nat, i: nat, k: nat)
    ensures [i] + Circle(n, After(n, i), k) == Circle(n, i, k + 1)
  {
  }

  /** The place k further in the circle. */
  function Onward(n: nat, i: nat, k: nat): nat
    decreases k
  {
    if k == 0 then i else Onward(n, After(n, i), k - 1)
  }

  lemma {:induction false} MissedInOrder(p: Pool, s: State, run: seq<Step>, t: nat)
    requires Inv(p, s) && SearchesThrough(p, s, run, t)
    ensures Run(p, s, run).Some? && t < |Run(p, s, run).value.users|
    ensures var n, l, l', missed :=
        |s.socks|, s.users[t], Run(p, s, run).value.users[t], MissedBy(p, s, run, t);
      && PlaceIn(n, l) && PlaceIn(n, l') && Searching(l')
      && Left(n, l) == |missed| + Left(n, l')
      && missed == Circle(n, NextMiss(n, l), |missed|)
      && NextMiss(n, l') == Onward(n, NextMiss(n, l), |missed|)
    decreases |run|
  {
    SearchRuns(p, s, run, t);
    assert PlaceIn(|s.socks|, s.users[t]);
    if run != [] {
      var u, e := run[0].user, run[0].event;
      AnyStep(p, s, u, e, t);
      if u == t {
        MissStep(p, s, t, e);
      } else {
        StepMoves(p, s, u, e);
      }
      var s' := Next(p, s, u, e).value;
      MissedInOrder(p, s', run[1..], t);
      CircleCons(|s.socks|, NextMiss(|s.socks|, s.users[t]), |MissedBy(p, s', run[1..], t)|);
    }
  }

  lemma {:induction false} CircleSnoc(n: nat, i: nat, k: nat)
    ensures Circle(n, i, k) + [Onward(n, i, k)] == Circle(n, i, k + 1)
    decreases k
  {
    if k > 0 {
      CircleSnoc(n, After(n, i), k - 1);
    }
  }

  /** A search that ends without a socket has found every socket of the pool unfit, one after
      the other in the order of the circle, whatever the others did meanwhile: its mutex was
      held, or it was not connected after it could have been. */
  lemma EmptyHanded(p: Pool, s: State, run: seq<Step>, t: nat, i: nat, s': State, e: Event, s'': State)
    requires Inv(p, s) && SearchesThrough(p, s, run, t) && s.users[t] == Trying(i, i)
    requires Run(p, s, run) == Some(s') && Next(p, s', t, e) == Some(s'')
    requires t < |s''.users| && s''.users[t] == Idle
    ensures MissedBy(p, s, run, t) + MissedAt(s', t, e) == Circle(|s.socks|, i, |s.socks|)
  {
    hide Next, MissedAt, Circle, MissedBy;
    MissedInOrder(p, s, run, t);
    SearchRuns(p, s, run, t);
    MissStep(p, s', t, e);
    CircleSnoc(|s.socks|, i, |MissedBy(p, s, run, t)|);
  }

  // --------------------------------------------------------------------------
  // One user alone

  /** The steps of one user, one after the other. */
  function Alone(p: Pool, s: State, t: nat, events: seq<Event>): Option<State>
    decreases |events|
  {
    if events == [] then Some(s)
    else
      var s' := Next(p, s, t, events[0]);
      if s'.Some? then Alone(p, s'.value, t, events[1..]) else None
  }

  lemma AloneStep(p: Pool, s: State, t: nat, e: Event, events: seq<Event>)
    requires Next(p, s, t, e).Some?
    ensures Alone(p, s, t, [e] + events) == Alone(p, Next(p, s, t, e).value, t, events)
  {
    assert ([e] + events)[1..] == events;
  }

  lemma AloneNothing(p: Pool, s: State, t: nat)
    ensures Alone(p, s, t, []) == Some(s)
  {
  }

  /** User t is at l, and socket i is as k; nothing else differs from s. */
  function Mid(s: State, t: nat, l: Local, i: nat, k: Sock): State
    requires t < |s.users| && i < |s.socks|
  {
    s.(users := s.users[t := l], socks := s.socks[i := k])
  }

  lemma MidOn(s: State, t: nat, l: Local, i: nat, k: Sock, l': Local, k': Sock)
    requires t < |s.users| && i < |s.socks|
    ensures At(Mid(s, t, l, i, k), t, l') == Mid(s, t, l', i, k)
    ensures Put(Mid(s, t, l, i, k), t, l', i, k') == Mid(s, t, l', i, k')
    ensures At(s, t, l) == Mid(s, t, l, i, s.socks[i])
  {
    assert s.users[t := l][t := l'] == s.users[t := l'];
    assert s.socks[i := k][i := k'] == s.socks[i := k'] && s.socks[i := s.socks[i]] == s.socks;
  }

  /** The first steps of a search that begins at a free socket, the last one used or the head:
      it is locked and marked as in use. */
  lemma SoloClaims(p: Pool, s: State, t: nat, i: nat, events: seq<Event>)
    requires t < |s.users| && s.users[t] == Idle && i < |s.socks|
    requires i == (if s.lastUsed.Some? then s.lastUsed.value else 0)
    requires s.socks[i].holder == None && !s.socks[i].inuse
    ensures Alone(p, s, t, [Start] + ([TryLock] + ([CheckInUse] + events)))
         == Alone(p, Mid(s, t, Connecting(i, i), i, s.socks[i].(holder := Some(t), inuse := true)), t, events)
  {
    var k := s.socks[i];
    var k', k'' := k.(holder := Some(t)), k.(holder := Some(t), inuse := true);
    MidOn(s, t, Trying(i, i), i, k, Checking(i, i), k');
    MidOn(s, t, Checking(i, i), i, k', Connecting(i, i), k'');
    AloneStep(p, s, t, Start, [TryLock] + ([CheckInUse] + events));
    AloneStep(p, Mid(s, t, Trying(i, i), i, k), t, TryLock, [CheckInUse] + events);
    AloneStep(p, Mid(s, t, Checking(i, i), i, k'), t, CheckInUse, events);
  }

  /** The attempt that an unconnected socket may get. */
  lemma SoloAttempt(p: Pool, s: State, t: nat, i: nat, k: Sock, time: int, result: Result)
    requires t < |s.users| && i < |s.socks| && !k.connected
    ensures Next(p, Mid(s, t, Connecting(i, i), i, k), t, MaybeConnect(time, result))
      == Some(if time <= s.connectAfter then Mid(s, t, Deciding(i, i), i, k)
              else if result.Failure? then
                Mid(s.(connectAfter := result.time + p.delay), t, Deciding(i, i), i, k.(conn := None))
              else
                Mid(s.(live := s.live[s.created := i], created := s.created + 1), t, Deciding(i, i), i,
                    k.(connected := true, conn := Some(s.created), backup :=
                         Failover.NextBackup((k.backup + result.skipped) % p.endpoints, result.rand, p.endpoints))))
  {
    var m := Mid(s, t, Connecting(i, i), i, k);
    MidOn(s, t, Connecting(i, i), i, k, Deciding(i, i), k);
    assert m.socks[i] == k;
    if time > s.connectAfter && result.Failure? {
      MidOn(s, t, Connecting(i, i), i, k, Deciding(i, i), k.(connected := false, conn := None));
    } else if time > s.connectAfter {
      MidOn(s, t, Connecting(i, i), i, k, Deciding(i, i),
            k.(connected := true, conn := Some(s.created), backup :=
                 Failover.NextBackup((k.backup + result.skipped) % p.endpoints, result.rand, p.endpoints)));
    }
  }

  /** The last steps with a socket that is connected. */
  lemma SoloKeeps(p: Pool, z: State, t: nat, i: nat, k: Sock)
    requires t < |z.users| && i < |z.socks| && k.connected
    ensures Alone(p, Mid(z, t, Deciding(i, i), i, k), t, [CheckState] + ([Remember] + []))
      == Some(Mid(z, t, Holding(i), i, k).(lastUsed := if i + 1 < |z.socks| then Some(i + 1) else None))
  {
    MidOn(z, t, Deciding(i, i), i, k, Taking(i), k);
    MidOn(z, t, Taking(i), i, k, Holding(i), k);
    AloneStep(p, Mid(z, t, Deciding(i, i), i, k), t, CheckState, [Remember] + []);
    AloneStep(p, Mid(z, t, Taking(i), i, k), t, Remember, []);
    AloneNothing(p, Next(p, Mid(z, t, Taking(i), i, k), t, Remember).value, t);
  }

  /** If it is connected, three more steps take it, the next search will start at the next
      socket in the circle, and nothing else has changed. */
  lemma SoloTakes(p: Pool, s: State, t: nat, i: nat, time: int, result: Result)
    requires t < |s.users| && s.users[t] == Idle && i < |s.socks|
    requires i == (if s.lastUsed.Some? then s.lastUsed.value else 0)
    requires s.socks[i].holder == None && !s.socks[i].inuse && s.socks[i].connected
    ensures Alone(p, s, t, [Start] + ([TryLock] + ([CheckInUse]
                           + ([MaybeConnect(time, result)] + ([CheckState] + ([Remember] + []))))))
      == Some(s.(users := s.users[t := Holding(i)],
                 socks := s.socks[i := s.socks[i].(holder := Some(t), inuse := true)],
                 lastUsed := if i + 1 < |s.socks| then Some(i + 1) else None))
  {
    var k := s.socks[i].(holder := Some(t), inuse := true);
    SoloClaims(p, s, t, i, [MaybeConnect(time, result)] + ([CheckState] + ([Remember] + [])));
    MidOn(s, t, Connecting(i, i), i, k, Deciding(i, i), k);
    AloneStep(p, Mid(s, t, Connecting(i, i), i, k), t, MaybeConnect(time, result), [CheckState] + ([Remember] + []));
    SoloKeeps(p, s, t, i, k);
  }

  /** If it is not connected, and the grace period is over, and an attempt succeeds, it is taken
      with a new context of its own and another backup. */
  lemma SoloConnects(p: Pool, s: State, t: nat, i: nat, time: int, skipped: nat, rand: nat)
    requires t < |s.users| && s.users[t] == Idle && i < |s.socks|
    requires i == (if s.lastUsed.Some? then s.lastUsed.value else 0)
    requires s.socks[i].holder == None && !s.socks[i].inuse && !s.socks[i].connected && time > s.connectAfter
    ensures var backup := Failover.NextBackup((s.socks[i].backup + skipped) % p.endpoints, rand, p.endpoints);
      Alone(p, s, t, [Start] + ([TryLock] + ([CheckInUse]
                     + ([MaybeConnect(time, Success(skipped, rand))] + ([CheckState] + ([Remember] + []))))))
      == Some(s.(users := s.users[t := Holding(i)],
                 socks := s.socks[i := Sock(Some(t), true, true, Some(s.created), backup)],
                 live := s.live[s.created := i], created := s.created + 1,
                 lastUsed := if i + 1 < |s.socks| then Some(i + 1) else None))
  {
    hide Next, Alone;
    var backup := Failover.NextBackup((s.socks[i].backup + skipped) % p.endpoints, rand, p.endpoints);
    var k, k' := s.socks[i].(holder := Some(t), inuse := true), Sock(Some(t), true, true, Some(s.created), backup);
    var z, tail := s.(live := s.live[s.created := i], created := s.created + 1), [CheckState] + ([Remember] + []);
    SoloClaims(p, s, t, i, [MaybeConnect(time, Success(skipped, rand))] + tail);
    SoloAttempt(p, s, t, i, k, time, Success(skipped, rand));
    AloneStep(p, Mid(s, t, Connecting(i, i), i, k), t, MaybeConnect(time, Success(skipped, rand)), tail);
    SoloKeeps(p, z, t, i, k');
  }

  /** Releasing gives the socket back as it was before it was taken. */
  lemma SoloReleases(p: Pool, s: State, t: nat, i: nat)
    requires t < |s.users| && s.users[t] == Holding(i) && i < |s.socks|
    ensures Alone(p, s, t, [Release] + ([ReleaseUnlock] + []))
      == Some(s.(users := s.users[t := Idle], socks := s.socks[i := s.socks[i].(holder := None, inuse := false)]))
  {
    var k := s.socks[i];
    var k', k'' := k.(inuse := false), k.(holder := None, inuse := false);
    MidOn(s, t, Releasing(i), i, k', Idle, k'');
    AloneStep(p, s, t, Release, [ReleaseUnlock] + []);
    AloneStep(p, Mid(s, t, Releasing(i), i, k'), t, ReleaseUnlock, []);
    AloneNothing(p, Mid(s, t, Idle, i, k''), t);
  }

  /** The last steps with a socket that could not be connected: it is given back as it was. */
  lemma SoloDrops(p: Pool, z: State, t: nat, i: nat)
    requires t < |z.users| && i < |z.socks| && !z.socks[i].connected && z.socks[i].holder == None && !z.socks[i].inuse
    ensures Alone(p, Mid(z, t, Deciding(i, i), i, z.socks[i].(holder := Some(t), inuse := true)), t,
                  [CheckState] + ([ClearInUse] + ([Unlock] + [])))
      == Some(z.(users := z.users[t :=
           if |z.socks| == 1 then Idle else Trying(i, if i + 1 < |z.socks| then i + 1 else 0)]))
  {
    var k := z.socks[i].(holder := Some(t), inuse := true);
    var k', k'' := k.(inuse := false), z.socks[i];
    MidOn(z, t, Deciding(i, i), i, k, Dropping(i, i), k);
    MidOn(z, t, Dropping(i, i), i, k, Unlocking(i, i), k');
    MidOn(z, t, Unlocking(i, i), i, k', GoOn(|z.socks|, i, i), k'');
    assert z.socks[i := k''] == z.socks;
    AloneStep(p, Mid(z, t, Deciding(i, i), i, k), t, CheckState, [ClearInUse] + ([Unlock] + []));
    AloneStep(p, Mid(z, t, Dropping(i, i), i, k), t, ClearInUse, [Unlock] + []);
    AloneStep(p, Mid(z, t, Unlocking(i, i), i, k'), t, Unlock, []);
    AloneNothing(p, Mid(z, t, GoOn(|z.socks|, i, i), i, k''), t);
  }

  /** If it is not connected: within the grace period nothing is tried, and after it an attempt
      that fails starts a new one. The search gives the socket back as it was and goes on to the
      next in the circle, or ends if that is where it began. */
  lemma SoloPasses(p: Pool, s: State, t: nat, i: nat, time: int, failed: int)
    requires t < |s.users| && s.users[t] == Idle && i < |s.socks|
    requires i == (if s.lastUsed.Some? then s.lastUsed.value else 0)
    requires s.socks[i].holder == None && !s.socks[i].inuse && !s.socks[i].connected && s.socks[i].conn == None
    ensures Alone(p, s, t, [Start] + ([TryLock] + ([CheckInUse]
                           + ([MaybeConnect(time, Failure(failed))]
                           + ([CheckState] + ([ClearInUse] + ([Unlock] + [])))))))
      == Some(s.(users := s.users[t :=
                   if |s.socks| == 1 then Idle else Trying(i, if i + 1 < |s.socks| then i + 1 else 0)],
                 connectAfter := if time > s.connectAfter then failed + p.delay else s.connectAfter))
  {
    hide Next, Alone;
    var k := s.socks[i].(holder := Some(t), inuse := true);
    var z := s.(connectAfter := if time > s.connectAfter then failed + p.delay else s.connectAfter);
    var events := [CheckState] + ([ClearInUse] + ([Unlock] + []));
    SoloClaims(p, s, t, i, [MaybeConnect(time, Failure(failed))] + events);
    SoloAttempt(p, s, t, i, k, time, Failure(failed));
    AloneStep(p, Mid(s, t, Connecting(i, i), i, k), t, MaybeConnect(time, Failure(failed)), events);
    SoloDrops(p, z, t, i);
  }

  /** A mutex that is held is not waited for: the search goes on to the next socket, and nothing
      else changes. */
  lemma HeldIsPassed(p: Pool, s: State, t: nat, start: nat, i: nat)
    requires t < |s.users| && s.users[t] == Trying(start, i) && i < |s.socks| && s.socks[i].holder.Some?
    ensures var next := if i + 1 < |s.socks| then i + 1 else 0;
      Next(p, s, t, TryLock) == Some(s.(users := s.users[t := if next == start then Idle else Trying(start, next)]))
  {
  }

  /** A command that fails frees the context at once; then the socket is connected to the first
      endpoint that can be reached, with a context of its own and another backup, or is
      unconnected, with a new grace period. */
  lemma SoloReplaces(p: Pool, s: State, t: nat, i: nat, skipped: nat, rand: nat, failed: int)
    requires t < |s.users| && s.users[t] == Holding(i) && i < |s.socks|
    requires s.socks[i].connected && s.socks[i].conn.Some?
    ensures var k, freed := s.socks[i], s.live - {s.socks[i].conn.value};
      && Alone(p, s, t, [CommandFails] + ([Reconnect(Success(skipped, rand))] + []))
           == Some(s.(live := freed[s.created := i], created := s.created + 1,
                      socks := s.socks[i := k.(conn := Some(s.created), backup :=
                        Failover.NextBackup((k.backup + skipped) % p.endpoints, rand, p.endpoints))]))
      && Alone(p, s, t, [CommandFails] + ([Reconnect(Failure(failed))] + []))
           == Some(s.(live := freed, connectAfter := failed + p.delay,
                      socks := s.socks[i := k.(connected := false, conn := None)]))
  {
    var broken := At(s, t, Broken(i)).(live := s.live - {s.socks[i].conn.value});
    assert s.users[t := Broken(i)][t := Holding(i)] == s.users;
    AloneStep(p, s, t, CommandFails, [Reconnect(Success(skipped, rand))] + []);
    AloneStep(p, s, t, CommandFails, [Reconnect(Failure(failed))] + []);
    AloneStep(p, broken, t, Reconnect(Success(skipped, rand)), []);
    AloneStep(p, broken, t, Reconnect(Failure(failed)), []);
    AloneNothing(p, Next(p, broken, t, Reconnect(Success(skipped, rand))).value, t);
    AloneNothing(p, Next(p, broken, t, Reconnect(Failure(failed))).value, t);
  }
}
