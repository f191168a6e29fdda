/** The connection pool, as one thread uses it: sockets on a linked list, searched in a
    circle, connected to the first endpoint that can be reached. */
module Pool {
  import opened Bytes
  import opened Dict
  import opened Failover

  const MAX_SOCKETS := 1000

  datatype Endpoint = Endpoint(host: string, port: int)

  datatype Config = Config(endpoints: seq<Endpoint>, sockets: int, delay: int)

  /** How an attempt to connect ends. Unreached leaves a context with an error in it. */
  datatype Outcome = Reached | Unreached | NoMemory

  /** Everything that comes from outside: how the n-th attempt to connect ends, given the
      endpoint, what the clock shows when it is read for the n-th time, the n-th random
      number, and the answer to the n-th command. */
  datatype World = World(
    outcome: (nat, nat) -> Outcome, clock: nat -> int, rand: nat -> nat, answer: nat -> Option<nat>)

  /** The state of a socket. */
  datatype View = View(locked: bool, inuse: bool, connected: bool, conn: Option<nat>, backup: nat)

  /** How often the world has been asked, and until when no connection is tried. */
  datatype Gauge = Gauge(attempts: nat, ticks: nat, connectAfter: int)

  class Socket {
    const id: nat
    var backup: nat
    var locked: bool
    var inuse: bool
    var connected: bool
    var conn: Option<nat>
    var next: Socket?

    constructor (id: nat, backup: nat)
      ensures this.id == id && this.backup == backup && next == null
      ensures !locked && !inuse && !connected && conn == None
    {
      this.id, this.backup, next := id, backup, null;
      locked, inuse, connected, conn := false, false, false, None;
    }
  }

  /** The sockets c are linked one after the other, starting from head. */
  ghost predicate Linked(head: Socket?, c: seq<Socket>)
    reads c`next
  {
    if c == [] then head == null else head == c[0] && Linked(c[0].next, c[1..])
  }

  /** The socket behind the i-th one. */
  lemma {:induction false} NextAt(head: Socket?, c: seq<Socket>, i: nat)
    requires Linked(head, c) && i < |c|
    ensures c[i].next == if i + 1 < |c| then c[i + 1] else null
    decreases i
  {
    if i == 0 {
      assert |c| > 1 ==> Linked(c[0].next, c[1..]) && c[1..][0] == c[1];
    } else {
      NextAt(c[0].next, c[1..], i - 1);
    }
  }

  function ViewOf(s: Socket): View
    reads s
  {
    View(s.locked, s.inuse, s.connected, s.conn, s.backup)
  }

  /** The sockets in the order of a search that starts at the i-th. */
  function Rotated(c: seq<Socket>, i: nat): (r: seq<Socket>)
    requires i < |c|
    ensures |r| == |c|
  {
    seq(|c|, j requires 0 <= j < |c| => c[if i + j < |c| then i + j else i + j - |c|])
  }

  lemma RotatedElems(c: seq<Socket>, i: nat)
    requires i < |c|
    ensures forall s :: s in c <==> s in Rotated(c, i)
    ensures Rotated(c, i)[0] == c[i]
  {
    forall s | s in c
      ensures s in Rotated(c, i)
    {
      var p: nat :| 0 <= p < |c| && c[p] == s;
      assert Rotated(c, i)[if p < i then |c| - i + p else p - i] == s;
    }
  }

  function Views(order: seq<Socket>): (vs: seq<View>)
    reads order
    ensures |vs| == |order| && forall i :: 0 <= i < |vs| ==> vs[i] == ViewOf(order[i])
  {
    if order == [] then [] else [ViewOf(order[0])] + Views(order[1..])
  }

  lemma NoDupAt(c: seq<Socket>, i: nat, j: nat)
    requires NoDup(c) && i < j < |c|
    ensures c[i] != c[j]
  {
    if i == 0 {
      assert c[j] == c[1..][j - 1];
    } else {
      NoDupAt(c[1..], i - 1, j - 1);
    }
  }

  lemma RotatedOnce(c: seq<Socket>, i: nat)
    requires NoDup(c) && i < |c|
    ensures forall a, b :: 0 <= a < b < |c| ==> Rotated(c, i)[a] != Rotated(c, i)[b]
  {
    forall a, b | 0 <= a < b < |c|
      ensures Rotated(c, i)[a] != Rotated(c, i)[b]
    {
      var a', b' := (if i + a < |c| then i + a else i + a - |c|), (if i + b < |c| then i + b else i + b - |c|);
      assert Rotated(c, i)[a] == c[a'] && Rotated(c, i)[b] == c[b'];
      if a' < b' {
        NoDupAt(c, a', b');
      } else {
        NoDupAt(c, b', a');
      }
    }
  }

  lemma {:induction false} AllDifferent(c: seq<Socket>)
    requires forall a, b :: 0 <= a < b < |c| ==> c[a] != c[b]
    ensures NoDup(c)
  {
    if c != [] {
      AllDifferent(c[1..]);
    }
  }

  /** The next pointer, or the head at the end of the list, leads on in the circle. */
  lemma RotatedNext(head: Socket?, c: seq<Socket>, i: nat, k: nat)
    requires Linked(head, c) && i < |c| && k < |c|
    ensures var s := Rotated(c, i)[k];
      (if s.next == null then head else s.next) == (if k + 1 < |c| then Rotated(c, i)[k + 1] else c[i])
    ensures Rotated(c, i)[0] == c[i]
  {
    var p := if i + k < |c| then i + k else i + k - |c|;
    assert Rotated(c, i)[k] == c[p];
    NextAt(head, c, p);
  }

  lemma NextInSpine(head: Socket?, c: seq<Socket>, s: Socket)
    requires Linked(head, c) && s in c
    ensures s.next == null || s.next in c
  {
    var i :| 0 <= i < |c| && c[i] == s;
    NextAt(head, c, i);
  }

  lemma OthersDiffer(c: seq<Socket>, k: nat)
    requires NoDup(c) && k < |c|
    ensures forall j :: 0 <= j < |c| && j != k ==> c[j] != c[k]
  {
    forall j | 0 <= j < |c| && j != k
      ensures c[j] != c[k]
    {
      NoDupAt(c, if j < k then j else k, if j < k then k else j);
    }
  }

  lemma Longer(c: seq<Socket>, n: nat)
    requires n < |c|
    ensures c[..n + 1] == c[..n] + [c[n]]
  {
  }

  class Pool {
    const world: World
    /** How many endpoints there are, and the delay after failing to connect. */
    const endpoints: nat
    const delay: int

    var connectAfter: int
    var head: Socket?
    var lastUsed: Socket?

    var attempts: nat
    var ticks: nat
    var draws: nat
    var sends: nat
    /** Contexts are numbered in the order in which they are allocated. */
    var created: nat

    ghost var spine: seq<Socket>
    /** The contexts that have not been freed, with the sockets that they were made for. */
    ghost var live: map<nat, Socket>

    ghost predicate Shape()
      reads this`head, this`lastUsed, this`spine, spine`next
    {
      && NoDup(spine) && Linked(head, spine)
      && (lastUsed == null || lastUsed in spine)
    }

    /** A socket is in use exactly while its mutex is held. */
    ghost predicate Locks()
      reads this`spine, spine`locked, spine`inuse
    {
      forall s :: s in spine ==> s.inuse == s.locked
    }

    ghost predicate Backups()
      reads this`spine, spine`backup
    {
      forall s :: s in spine ==> s.backup < endpoints
    }

    ghost predicate Numbered()
      reads this`live, this`created
    {
      forall c :: c in live ==> c < created
    }

    /** A connected socket has a context that is live and its own; no other has one. */
    ghost predicate Holds(s: Socket)
      reads this`live, s`connected, s`conn
    {
      && s.connected == s.conn.Some?
      && (s.conn.Some? ==> s.conn.value in live && live[s.conn.value] == s)
    }

    /** All sockets of c but one are like that, and there are no further live contexts. */
    ghost predicate HoldersBut(c: seq<Socket>, but: Socket?)
      reads this`live, c`connected, c`conn
    {
      && (forall s :: s in c && s != but ==> Holds(s))
      && (forall x :: x in live ==> live[x] in c && live[x] != but && live[x].conn == Some(x))
    }

    /** The live contexts are the contexts of the connected sockets c, one each. */
    ghost predicate Holders(c: seq<Socket>)
      reads this`live, c`connected, c`conn
    {
      HoldersBut(c, null)
    }

    /** All of this but the contexts. */
    ghost predicate Sane()
      reads this, spine
    {
      endpoints > 0 && Shape() && Locks() && Backups() && Numbered()
    }

    ghost predicate Valid()
      reads this, spine
    {
      Sane() && Holders(spine)
    }

    // ----------------------------------------------------------------------
    // Connections

    method Now() returns (t: int)
      modifies this`ticks
      ensures t == world.clock(old(ticks)) && ticks == old(ticks) + 1
    {
      t := world.clock(ticks);
      ticks := ticks + 1;
    }

    /** Try to connect to an endpoint: a context, if there is memory for one, and whether
        it is connected. */
    method Open(endpoint: nat, ghost s: Socket) returns (c: Option<nat>, ok: bool)
      requires Numbered()
      modifies this`attempts, this`created, this`live
      ensures Numbered() && attempts == old(attempts) + 1
      ensures ok == world.outcome(old(attempts), endpoint).Reached?
      ensures c.Some? == !world.outcome(old(attempts), endpoint).NoMemory?
      ensures c.Some? ==> c.value !in old(live) && c.value >= old(created) && live == old(live)[c.value := s]
      ensures c.None? ==> live == old(live)
      ensures old(created) <= created
    {
      var outcome := world.outcome(attempts, endpoint);
      attempts := attempts + 1;
      if outcome.NoMemory? {
        return None, false;
      }
      c, ok := Some(created), outcome.Reached?;
      live, created := live[created := s], created + 1;
    }

    /** A context is freed while it is live, and hence once. */
    method FreeContext(c: nat)
      requires c in live
      modifies this`live
      ensures live == old(live) - {c}
    {
      live := live - {c};
    }

    method Discard(c: Option<nat>)
      requires c.Some? ==> c.value in live
      modifies this`live
      ensures live == if c.Some? then old(live) - {c.value} else old(live)
    {
      if c.Some? {
        FreeContext(c.value);
      }
    }

    /** The endpoint that comes j-th in a round from the backup b cannot be reached by the
        attempt that tries it, the attempts being counted from a. */
    ghost predicate FailsAt(a: nat, b: nat, j: nat)
      requires j < endpoints
    {
      !world.outcome(a + j, Round(b, endpoints, endpoints)[j]).Reached?
    }

    /** The place in the round, from the j-th on, of the first endpoint that can be reached;
        a whole round if there is none. */
    ghost function FirstReached(a: nat, b: nat, j: nat): (k: nat)
      requires j <= endpoints
      ensures j <= k <= endpoints && (k < endpoints ==> !FailsAt(a, b, k))
      ensures forall i :: j <= i < k ==> FailsAt(a, b, i)
      decreases endpoints - j
    {
      if j == endpoints || !FailsAt(a, b, j) then j else FirstReached(a, b, j + 1)
    }

    /** Some endpoint can be reached by the attempt that would try it. */
    ghost predicate Reachable(a: nat, b: nat) {
      FirstReached(a, b, 0) < endpoints
    }

    // ----------------------------------------------------------------------
    // Which socket a search should find

    ghost function Reading(): Gauge
      reads this`attempts, this`ticks, this`connectAfter
    {
      Gauge(attempts, ticks, connectAfter)
    }

    /** An unconnected socket gets connected now. */
    ghost predicate Due(backup: nat, g: Gauge)
      requires endpoints > 0
    {
      world.clock(g.ticks) > g.connectAfter && Reachable(g.attempts, backup)
    }

    /** A socket can be had if nobody holds it and it is connected, or the grace period is
        over and some endpoint can be reached. */
    ghost predicate Eligible(v: View, g: Gauge)
      requires endpoints > 0
    {
      !v.locked && (v.connected || Due(v.backup, g))
    }

    /** What an attempt to connect costs: so many attempts, and a grace period if all fail. */
    ghost function Tried(backup: nat, g: Gauge): Gauge
      requires endpoints > 0
    {
      var k := FirstReached(g.attempts, backup, 0);
      if k < endpoints then g.(attempts := g.attempts + k + 1)
      else Gauge(g.attempts + endpoints, g.ticks + 1, world.clock(g.ticks) + delay)
    }

    /** What an unconnected socket costs: a look at the clock and, unless the grace period is
        running, an attempt. */
    ghost function Looked(backup: nat, g: Gauge): Gauge
      requires endpoints > 0
    {
      var g' := g.(ticks := g.ticks + 1);
      if world.clock(g.ticks) <= g.connectAfter then g' else Tried(backup, g')
    }

    /** What passing over a socket costs: nothing if it is held. */
    ghost function Pass(v: View, g: Gauge): Gauge
      requires endpoints > 0
    {
      if v.locked || v.connected then g else Looked(v.backup, g)
    }

    /** The place of the first socket that can be had when it is looked at; the number of
        sockets if there is none. */
    ghost function FirstEligible(vs: seq<View>, g: Gauge): (k: nat)
      requires endpoints > 0
      ensures k <= |vs|
    {
      if vs == [] || Eligible(vs[0], g) then 0 else 1 + FirstEligible(vs[1..], Pass(vs[0], g))
    }

    lemma FirstEligibleStep(vs: seq<View>, k: nat, g: Gauge)
      requires endpoints > 0 && k < |vs|
      ensures FirstEligible(vs[k..], g)
           == if Eligible(vs[k], g) then 0 else 1 + FirstEligible(vs[k + 1..], Pass(vs[k], g))
    {
      assert vs[k..][1..] == vs[k + 1..];
    }

    ghost function GaugeAt(vs: seq<View>, g: Gauge, j: nat): Gauge
      requires endpoints > 0 && j <= |vs|
    {
      if j == 0 then g else GaugeAt(vs[1..], Pass(vs[0], g), j - 1)
    }

    /** The first one that can be had: it can, and none before it can. */
    lemma {:induction false} FirstEligibleIsFirst(vs: seq<View>, g: Gauge)
      requires endpoints > 0
      ensures var k := FirstEligible(vs, g);
        && (k < |vs| ==> Eligible(vs[k], GaugeAt(vs, g, k)))
        && forall j :: 0 <= j < k ==> !Eligible(vs[j], GaugeAt(vs, g, j))
      decreases |vs|
    {
      if vs != [] && !Eligible(vs[0], g) {
        var rest, g' := vs[1..], Pass(vs[0], g);
        FirstEligibleIsFirst(rest, g');
        forall j | 0 <= j < FirstEligible(vs, g)
          ensures !Eligible(vs[j], GaugeAt(vs, g, j))
        {
          if j > 0 {
            assert vs[j] == rest[j - 1] && GaugeAt(vs, g, j) == GaugeAt(rest, g', j - 1);
          }
        }
      }
    }

    /** While the grace period lasts, only a socket that is free and connected can be had: the
        first of them, if there is one. */
    lemma {:induction false} GraceFinds(vs: seq<View>, g: Gauge)
      requires endpoints > 0
      requires forall t :: g.ticks <= t < g.ticks + |vs| ==> world.clock(t) <= g.connectAfter
      ensures var k := FirstEligible(vs, g);
        && (k < |vs| ==> vs[k].connected && !vs[k].locked)
        && forall j :: 0 <= j < k ==> !(vs[j].connected && !vs[j].locked)
      decreases |vs|
    {
      if vs != [] {
        assert world.clock(g.ticks) <= g.connectAfter;
        var rest, g' := vs[1..], Pass(vs[0], g);
        GraceFinds(rest, g');
        forall j | 0 <= j < FirstEligible(vs, g)
          ensures !(vs[j].connected && !vs[j].locked)
        {
          assert j > 0 ==> vs[j] == rest[j - 1];
        }
      }
    }

    /** A free socket that is not connected, after the grace period: it can be had if and only
        if one of the endpoints, tried in a circle from its backup on, is reached by its
        attempt. If none is, the search goes on after so many attempts, two looks at the clock
        and with a new grace period. */
    lemma DueFinds(vs: seq<View>, g: Gauge)
      requires endpoints > 0 && vs != [] && !vs[0].locked && !vs[0].connected
      requires world.clock(g.ticks) > g.connectAfter
      ensures FirstEligible(vs, g) == 0 <==>
        exists j :: 0 <= j < endpoints
          && world.outcome(g.attempts + j, Round(vs[0].backup, endpoints, endpoints)[j]).Reached?
      ensures FirstEligible(vs, g) != 0 ==>
        FirstEligible(vs, g)
          == 1 + FirstEligible(vs[1..], Gauge(g.attempts + endpoints, g.ticks + 2, world.clock(g.ticks + 1) + delay))
    {
      var b, k := vs[0].backup, FirstReached(g.attempts, vs[0].backup, 0);
      if k < endpoints {
        assert !FailsAt(g.attempts, b, k);
      } else {
        forall j | 0 <= j < endpoints
          ensures !world.outcome(g.attempts + j, Round(b, endpoints, endpoints)[j]).Reached?
        {
          assert FailsAt(g.attempts, b, j);
        }
      }
    }

    /** Nobody goes away empty-handed while a connected socket is free. */
    lemma {:induction false} ConnectedIsFound(vs: seq<View>, g: Gauge, j: nat)
      requires endpoints > 0 && j < |vs| && vs[j].connected && !vs[j].locked
      ensures FirstEligible(vs, g) <= j
      decreases j
    {
      if j > 0 && !Eligible(vs[0], g) {
        ConnectedIsFound(vs[1..], Pass(vs[0], g), j - 1);
      }
    }

    /** Try the endpoint that is the backup, the j-th of the round from b. */
    method TryOne(s: Socket, ghost a: nat, ghost b: nat, ghost j: nat) returns (reached: bool)
      requires Numbered() && j < endpoints && attempts == a + j && s.backup == Round(b, endpoints, endpoints)[j]
      modifies this`attempts, this`draws, this`created, this`live
      modifies s`backup, s`connected, s`conn
      ensures Numbered() && old(created) <= created && attempts == old(attempts) + 1
      ensures reached == !FailsAt(a, b, j)
      ensures FirstReached(a, b, j) == if reached then j else FirstReached(a, b, j + 1)
      ensures reached ==>
        && s.connected && s.conn.Some? && s.conn.value !in old(live) && s.conn.value >= old(created)
        && live == old(live)[s.conn.value := s]
        && s.backup == NextBackup(old(s.backup), world.rand(old(draws)), endpoints)
      ensures !reached ==> live == old(live) && draws == old(draws) && s.backup == (b + j + 1) % endpoints
    {
      var c;
      c, reached := Open(s.backup, s);
      if reached {
        s.conn, s.connected := c, true;
        s.backup := NextBackup(s.backup, world.rand(draws), endpoints);
        if endpoints > 1 {
          draws := draws + 1;
        }
      } else {
        Discard(c);
        assert live == old(live);
        RoundStep(b, j, endpoints);
        s.backup := (s.backup + 1) % endpoints;
      }
    }

    /** `connect_single_socket`: try the endpoints in a circle from the backup on until one
        can be reached; k of them failed. */
    method ConnectSocket(s: Socket) returns (ok: bool, ghost k: nat)
      requires Numbered() && s.backup < endpoints
      modifies this`connectAfter, this`attempts, this`ticks, this`draws, this`created, this`live
      modifies s`backup, s`connected, s`conn
      ensures Numbered() && old(created) <= created
      ensures s.connected == ok && s.conn.Some? == ok && s.backup < endpoints
      ensures ok == (k < endpoints) && k == FirstReached(old(attempts), old(s.backup), 0)
      ensures attempts == old(attempts) + k + (if ok then 1 else 0)
      ensures ok == Reachable(old(attempts), old(s.backup))
      ensures ok ==> s.conn.value !in old(live) && s.conn.value >= old(created) && live == old(live)[s.conn.value := s]
      ensures ok ==> s.backup == NextBackup((old(s.backup) + k) % endpoints, world.rand(old(draws)), endpoints)
      ensures !ok ==> live == old(live) && s.backup == old(s.backup)
      ensures ticks == old(ticks) + (if ok then 0 else 1)
      ensures connectAfter == if ok then old(connectAfter) else world.clock(old(ticks)) + delay
    {
      hide FailsAt;
      var i := 0;
      ghost var a, b := attempts, s.backup;
      PlaceOf(b, 0, endpoints);
      while i < endpoints
        invariant 0 <= i <= endpoints && s.backup == (b + i) % endpoints
        invariant Numbered() && old(created) <= created && live == old(live)
        invariant attempts == a + i && draws == old(draws)
        invariant ticks == old(ticks) && connectAfter == old(connectAfter)
        invariant FirstReached(a, b, i) == FirstReached(a, b, 0)
      {
        var reached := TryOne(s, a, b, i);
        if reached {
          return true, i;
        }
        i := i + 1;
      }
      Remainder(1, b, endpoints);
      s.conn, s.connected := None, false;
      var t := Now();
      connectAfter := t + delay;
      return false, endpoints;
    }

    /** Connect a socket that has no context. */
    method Connect(s: Socket, ghost c: seq<Socket>) returns (ok: bool)
      requires Numbered() && s.backup < endpoints && HoldersBut(c, s)
      modifies this`connectAfter, this`attempts, this`ticks, this`draws, this`created, this`live
      modifies s`backup, s`connected, s`conn
      ensures Numbered() && s.backup < endpoints && s.connected == ok
      ensures Holds(s) && Holders(if s in c then c else [s] + c)
      ensures ok ==> s.conn.Some? && s.conn.value >= old(created)
      ensures live == if ok then old(live)[s.conn.value := s] else old(live)
      ensures ok == Reachable(old(attempts), old(s.backup)) && (!ok ==> s.backup == old(s.backup))
      ensures Reading() == Tried(old(s.backup), old(Reading()))
    {
      ghost var k;
      ok, k := ConnectSocket(s);
      assert Holds(s);
      ghost var d := if s in c then c else [s] + c;
      assert forall t :: t in d ==> t == s || t in c;
    }

    /** Connect a socket of the pool that has no context. */
    method Reconnect(s: Socket) returns (ok: bool)
      requires Sane() && s in spine && HoldersBut(spine, s)
      modifies this`connectAfter, this`attempts, this`ticks, this`draws, this`created, this`live
      modifies s`backup, s`connected, s`conn
      ensures Valid() && s.connected == ok
      ensures ok ==> s.conn.Some? && s.conn.value >= old(created)
      ensures live == if ok then old(live)[s.conn.value := s] else old(live)
      ensures ok == Reachable(old(attempts), old(s.backup)) && (!ok ==> s.backup == old(s.backup))
      ensures Reading() == Tried(old(s.backup), old(Reading()))
    {
      ok := Connect(s, spine);
    }

    // ----------------------------------------------------------------------
    // Getting and releasing sockets

    /** The search looked at s and went on: s is held or unconnected, and as it was. */
    static predicate PassedOver(s: Socket, was: View)
      reads s
    {
      ViewOf(s) == was && (was.locked || !was.connected)
    }

    /** The socket was free; it is held and connected now. */
    static predicate Taken(s: Socket, was: View)
      reads s
    {
      && !was.locked && s.locked && s.connected
      && (was.connected ==> s.conn == was.conn && s.backup == was.backup)
    }

    /** Connect a socket, unless the grace period is running. */
    method ConnectIfDue(s: Socket)
      requires Valid() && s in spine && !s.connected
      modifies this`connectAfter, this`attempts, this`ticks, this`draws, this`created, this`live
      modifies s`backup, s`connected, s`conn
      ensures Valid() && s.connected == Due(old(s.backup), old(Reading()))
      ensures Reading() == Looked(old(s.backup), old(Reading())) && (!s.connected ==> s.backup == old(s.backup))
    {
      var t := Now();
      if t > connectAfter {
        var ok := Reconnect(s);
      }
    }

    /** Lock the mutex and mark the socket as in use: a free mutex means that nobody uses
        it. */
    method Claim(s: Socket)
      requires Valid() && s in spine && !s.locked
      modifies s`locked, s`inuse
      ensures Valid() && s.locked && s.inuse
    {
      s.locked := true;
      assert !s.inuse;
      s.inuse := true;
    }

    method GiveBack(s: Socket)
      requires Valid() && s in spine && s.locked
      modifies s`locked, s`inuse
      ensures Valid() && !s.locked && !s.inuse
    {
      s.inuse := false;
      s.locked := false;
    }

    /** Try to take one socket; the mutex stays locked if that succeeds, which it does if the
        socket can be had. */
    method TryTake(s: Socket) returns (got: bool)
      requires Valid() && s in spine
      modifies this`connectAfter, this`attempts, this`ticks, this`draws, this`created, this`live
      modifies s`locked, s`inuse, s`connected, s`backup, s`conn
      ensures Valid()
      ensures got == old(Eligible(ViewOf(s), Reading()))
      ensures if got then s.locked && s.connected
        else PassedOver(s, old(ViewOf(s))) && Reading() == old(Pass(ViewOf(s), Reading()))
      ensures old(s.connected) ==>
        s.connected && s.conn == old(s.conn) && s.backup == old(s.backup) && live == old(live)
    {
      if s.locked {
        return false;
      }
      Claim(s);
      if !s.connected {
        ConnectIfDue(s);
      }
      if !s.connected {
        GiveBack(s);
      }
      return s.connected;
    }

    /** Where the next search starts: where the last one left off, or at the head. */
    ghost function Start(): Socket?
      reads this`spine, this`lastUsed
    {
      if lastUsed == null && spine != [] then spine[0] else lastUsed
    }

    /** The sockets in the order of the circle, beginning with start. */
    ghost predicate InCircle(order: seq<Socket>, start: Socket?)
      reads this`spine
    {
      exists i :: 0 <= i < |spine| && order == Rotated(spine, i) && spine[i] == start
    }

    lemma CircleMeans(order: seq<Socket>, start: Socket?)
      requires InCircle(order, start)
      ensures |order| == |spine| && |order| > 0 && order[0] == start && forall s :: s in spine ==> s in order
    {
      var i :| 0 <= i < |spine| && order == Rotated(spine, i) && spine[i] == start;
      RotatedElems(spine, i);
    }

    /** Of the sockets in order, the first k were passed over, the next one, if there is
        one, was taken, and the others were not looked at. */
    static predicate Searched(order: seq<Socket>, was: seq<View>, k: nat)
      reads order
    {
      && |was| == |order|
      && (forall j :: 0 <= j < k && j < |order| ==> PassedOver(order[j], was[j]))
      && (k < |order| ==> Taken(order[k], was[k]))
      && (forall j :: k < j < |order| ==> ViewOf(order[j]) == was[j])
    }

    /** The next pointer of the k-th socket, or the head at the end of the list, leads to the
        one behind it in the circle. */
    ghost predicate Follows(order: seq<Socket>, k: nat)
      requires k < |order|
      reads this`head, order`next
    {
      (if order[k].next == null then head else order[k].next) == order[if k + 1 < |order| then k + 1 else 0]
    }

    /** The sockets in order are different ones of the pool, and each leads to the next. */
    ghost predicate Ring(order: seq<Socket>)
      reads this`head, this`spine, order`next
    {
      && (forall j :: 0 <= j < |order| ==> order[j] in spine && Follows(order, j))
      && NoDup(order)
    }

    lemma RotatedRing(i: nat)
      requires Shape() && i < |spine|
      ensures Ring(Rotated(spine, i)) && Rotated(spine, i)[0] == spine[i]
    {
      var order := Rotated(spine, i);
      RotatedElems(spine, i);
      RotatedOnce(spine, i);
      AllDifferent(order);
      forall j | 0 <= j < |order|
        ensures Follows(order, j)
      {
        RotatedNext(head, spine, i, j);
      }
    }

    /** Of the sockets in order, the first k were passed over, and the others are as they
        were. */
    static predicate Scanned(order: seq<Socket>, was: seq<View>, k: nat)
      reads order
    {
      && |was| == |order|
      && (forall j :: 0 <= j < k && j < |order| ==> PassedOver(order[j], was[j]))
      && (forall j :: k <= j < |order| ==> ViewOf(order[j]) == was[j])
    }

    /** Try a socket, and remember where to go on if that succeeds. */
    method TakeOrPass(s: Socket) returns (got: bool)
      requires Valid() && s in spine
      modifies this`connectAfter, this`attempts, this`ticks, this`draws, this`created, this`live, this`lastUsed
      modifies s`locked, s`inuse, s`connected, s`backup, s`conn
      ensures Valid()
      ensures got == old(Eligible(ViewOf(s), Reading()))
      ensures if got then Taken(s, old(ViewOf(s)))
        else PassedOver(s, old(ViewOf(s))) && Reading() == old(Pass(ViewOf(s), Reading()))
      ensures lastUsed == if got then s.next else old(lastUsed)
    {
      got := TryTake(s);
      if got {
        NextInSpine(head, spine, s);
        lastUsed := s.next;
      }
    }

    /** Try the k-th socket in order; the others stay as they are. */
    method TryInOrder(cur: Socket, ghost order: seq<Socket>, ghost was: seq<View>, ghost k: nat) returns (got: bool)
      requires Valid() && NoDup(order) && k < |order| && cur == order[k] && cur in spine && Scanned(order, was, k)
      modifies this`connectAfter, this`attempts, this`ticks, this`draws, this`created, this`live, this`lastUsed
      modifies cur`locked, cur`inuse, cur`connected, cur`backup, cur`conn
      ensures Valid()
      ensures if got then Searched(order, was, k) else Scanned(order, was, k + 1)
      ensures got == Eligible(was[k], old(Reading())) && (!got ==> Reading() == Pass(was[k], old(Reading())))
      ensures lastUsed == if got then cur.next else old(lastUsed)
    {
      OthersDiffer(order, k);
      assert ViewOf(order[k]) == was[k];
      got := TakeOrPass(cur);
    }

    /** One turn of the search, at the k-th socket: it is taken, or the search goes on to the
        next socket in the circle, one nearer to the first that can be had. */
    method Visit(cur: Socket, ghost order: seq<Socket>, ghost was: seq<View>, ghost k: nat)
      returns (got: bool, next: Socket?)
      requires Valid() && Ring(order) && k < |order| && cur == order[k] && Scanned(order, was, k)
      modifies this`connectAfter, this`attempts, this`ticks, this`draws, this`created, this`live, this`lastUsed
      modifies cur`locked, cur`inuse, cur`connected, cur`backup, cur`conn
      ensures Valid()
      ensures if got then Searched(order, was, k) else Scanned(order, was, k + 1)
      ensures old(FirstEligible(was[k..], Reading()))
           == if got then 0 else 1 + FirstEligible(was[k + 1..], Reading())
      ensures if next == order[0] then k + 1 == |order| else k + 1 < |order| && next == order[k + 1]
      ensures lastUsed == if got then cur.next else old(lastUsed)
    {
      if k + 1 < |order| {
        NoDupAt(order, 0, k + 1);
      }
      FirstEligibleStep(was, k, Reading());
      assert Follows(order, k);
      got := TryInOrder(cur, order, was, k);
      next := if cur.next == null then head else cur.next;
    }

    /** The loop of the search. */
    method Search(start: Socket, ghost order: seq<Socket>, ghost was: seq<View>) returns (r: Socket?, ghost k: nat)
      requires Valid() && Ring(order) && order != [] && order[0] == start && was == Views(order)
      modifies this`connectAfter, this`attempts, this`ticks, this`draws, this`created, this`live, this`lastUsed
      modifies spine`locked, spine`inuse, spine`connected, spine`backup, spine`conn
      ensures Valid() && k == FirstEligible(was, old(Reading())) && Searched(order, was, k)
      ensures r == if k < |order| then order[k] else null
      ensures lastUsed == if r == null then old(lastUsed) else r.next
    {
      hide FirstEligible, PassedOver, Taken;
      var cur := start;
      k := 0;
      assert was[0..] == was;
      while true
        invariant Valid() && k < |order| && cur == order[k]
        invariant Scanned(order, was, k) && lastUsed == old(lastUsed)
        invariant FirstEligible(was, old(Reading())) == k + FirstEligible(was[k..], Reading())
        decreases |order| - k
      {
        var got, next := Visit(cur, order, was, k);
        if got {
          return cur, k;
        }
        cur, k := next, k + 1;
        if cur == start {
          return null, k;
        }
      }
    }

    method SearchFrom(start: Socket) returns (r: Socket?, ghost order: seq<Socket>, ghost k: nat)
      requires Valid() && start in spine
      modifies this`connectAfter, this`attempts, this`ticks, this`draws, this`created, this`live, this`lastUsed
      modifies spine`locked, spine`inuse, spine`connected, spine`backup, spine`conn
      ensures Valid() && InCircle(order, start)
      ensures k == old(FirstEligible(Views(order), Reading())) && Searched(order, old(Views(order)), k)
      ensures r == if k < |order| then order[k] else null
      ensures lastUsed == if r == null then old(lastUsed) else r.next
    {
      ghost var i :| 0 <= i < |spine| && spine[i] == start;
      order := Rotated(spine, i);
      RotatedRing(i);
      r, k := Search(start, order, Views(order));
    }

    /** `redis_get_socket`: search in a circle, from where the last search left off, and take
        the first socket that can be had, the k-th of the circle; null means that there is
        none. */
    method GetSocket() returns (r: Socket?, ghost order: seq<Socket>, ghost k: nat)
      requires Valid()
      modifies this`connectAfter, this`attempts, this`ticks, this`draws, this`created, this`live, this`lastUsed
      modifies spine`locked, spine`inuse, spine`connected, spine`backup, spine`conn
      ensures Valid()
      ensures spine == [] ==> order == []
      ensures spine != [] ==> InCircle(order, old(Start()))
      ensures k == old(FirstEligible(Views(order), Reading())) && Searched(order, old(Views(order)), k)
      ensures r == if k < |order| then order[k] else null
      ensures lastUsed == if r == null then old(lastUsed) else r.next
    {
      var start := if lastUsed == null then head else lastUsed;
      if start == null {
        return null, [], 0;
      }
      r, order, k := SearchFrom(start);
    }

    /** `redis_release_socket`. */
    method ReleaseSocket(s: Socket?)
      requires Valid() && (s != null ==> s in spine && s.locked)
      modifies (if s == null then {} else {s})`locked, (if s == null then {} else {s})`inuse
      ensures Valid()
      ensures s != null ==>
        && !s.locked && !s.inuse
        && s.connected == old(s.connected) && s.conn == old(s.conn) && s.backup == old(s.backup)
    {
      if s != null {
        GiveBack(s);
      }
    }

    ghost predicate AllFree()
      reads this`spine, spine`connected, spine`locked
    {
      forall s :: s in spine ==> s.connected && !s.locked
    }

    /** If all sockets are connected and free, a search takes the one where it starts. */
    method TakeFirst() returns (s: Socket)
      requires Valid() && AllFree() && spine != []
      modifies this`connectAfter, this`attempts, this`ticks, this`draws, this`created, this`live, this`lastUsed
      modifies spine`locked, spine`inuse, spine`connected, spine`backup, spine`conn
      ensures Valid() && s == old(Start()) && s in spine && s.locked && s.connected && lastUsed == s.next
      ensures forall t :: t in spine && t != s ==> t.connected && !t.locked
    {
      hide FirstReached, Looked, PassedOver;
      ghost var start := Start();
      var r, order, k := GetSocket();
      CircleMeans(order, start);
      s := r;
    }

    method Turn() returns (s: Socket)
      requires Valid() && AllFree() && spine != []
      modifies this`connectAfter, this`attempts, this`ticks, this`draws, this`created, this`live, this`lastUsed
      modifies spine`locked, spine`inuse, spine`connected, spine`backup, spine`conn
      ensures Valid() && AllFree() && s == old(Start()) && lastUsed == s.next
    {
      s := TakeFirst();
      ReleaseSocket(s);
    }

    /** Take and release `count` sockets, one at a time: they come in the order of the
        circle from the i-th on. */
    method TakeRound(count: nat, ghost i: nat) returns (seen: seq<Socket>)
      requires Valid() && AllFree() && count == |spine| && i < |spine| && spine[i] == Start()
      modifies this`connectAfter, this`attempts, this`ticks, this`draws, this`created, this`live, this`lastUsed
      modifies spine`locked, spine`inuse, spine`connected, spine`backup, spine`conn
      ensures Valid() && AllFree() && Start() == old(Start()) && seen == Rotated(spine, i)
    {
      seen := [];
      ghost var order := Rotated(spine, i);
      RotatedElems(spine, i);
      for n := 0 to count
        invariant Valid() && AllFree() && seen == order[..n]
        invariant Start() == if n < count then order[n] else spine[i]
      {
        var s := Turn();
        RotatedNext(head, spine, i, n);
        Longer(order, n);
        seen := seen + [s];
      }
    }

    /** Once round the pool: take and release as many sockets as there are, one at a time.
        If all are connected and free, each has its turn once. */
    method TakeTurns(count: nat) returns (seen: seq<Socket>)
      requires Valid() && AllFree() && count == |spine|
      modifies this`connectAfter, this`attempts, this`ticks, this`draws, this`created, this`live, this`lastUsed
      modifies spine`locked, spine`inuse, spine`connected, spine`backup, spine`conn
      ensures Valid() && AllFree() && Start() == old(Start())
      ensures |seen| == |spine| && (forall s :: s in spine ==> s in seen)
      ensures forall a, b :: 0 <= a < b < |seen| ==> seen[a] != seen[b]
    {
      if count == 0 {
        return [];
      }
      ghost var i :| 0 <= i < |spine| && spine[i] == Start();
      RotatedOnce(spine, i);
      RotatedElems(spine, i);
      seen := TakeRound(count, i);
    }

    // ----------------------------------------------------------------------
    // Commands

    /** Send a command over a context that has not been freed. */
    method Send(c: nat) returns (reply: Option<nat>)
      requires c in live
      modifies this`sends
      ensures reply == world.answer(old(sends)) && sends == old(sends) + 1
    {
      reply := world.answer(sends);
      sends := sends + 1;
    }

    /** The context that failed is of no more use: free it, and connect again. */
    method Replace(s: Socket) returns (ok: bool)
      requires Valid() && s in spine && s.connected
      modifies this`connectAfter, this`attempts, this`ticks, this`draws, this`created, this`live
      modifies s`backup, s`connected, s`conn
      ensures Valid() && s.connected == ok && old(s.conn.value) !in live
      ensures ok == Reachable(old(attempts), old(s.backup))
      ensures ok ==> s.conn.Some? && s.conn.value >= old(created)
    {
      FreeContext(s.conn.value);
      ok := Reconnect(s);
    }

    /** `redis_vcommand`: a command that fails is sent once more, over a new connection. */
    method Command(s: Socket) returns (reply: Option<nat>)
      requires Valid() && s in spine && s.locked && s.connected
      modifies this`connectAfter, this`attempts, this`ticks, this`draws, this`created, this`live, this`sends
      modifies s`backup, s`connected, s`conn
      ensures Valid()
      ensures s.connected ==> s.conn.Some? && s.conn.value in live
      ensures var first := world.answer(old(sends));
        if first.Some? then reply == first && sends == old(sends) + 1 && unchanged(s) && live == old(live)
        else
          && old(s.conn.value) !in live
          && s.connected == Reachable(old(attempts), old(s.backup))
          && (if s.connected then reply == world.answer(old(sends) + 1) && sends == old(sends) + 2
              else reply == None && sends == old(sends) + 1)
    {
      reply := Send(s.conn.value);
      if reply.None? {
        var ok := Replace(s);
        if ok {
          reply := Send(s.conn.value);
        }
      }
    }

    // ----------------------------------------------------------------------
    // The life of a pool

    constructor (world: World, endpoints: nat, delay: int)
      requires endpoints > 0
      ensures Valid() && spine == [] && live == map[]
      ensures this.world == world && this.endpoints == endpoints && this.delay == delay
      ensures Reading() == Gauge(0, 0, 0) && created == 0
    {
      this.world, this.endpoints, this.delay := world, endpoints, delay;
      connectAfter, head, lastUsed := 0, null, null;
      attempts, ticks, draws, sends, created := 0, 0, 0, 0, 0;
      spine, live := [], map[];
    }

    /** Connect a new socket, if the time has come. */
    method ConnectNew(s: Socket)
      requires Valid() && s !in spine && s.backup < endpoints && !s.connected && s.conn == None
      modifies this`connectAfter, this`attempts, this`ticks, this`draws, this`created, this`live
      modifies s`backup, s`connected, s`conn
      ensures Sane() && Holders([s] + spine) && s.backup < endpoints
      ensures s.connected == Due(old(s.backup), old(Reading())) && (!s.connected ==> s.backup == old(s.backup))
      ensures Reading() == Looked(old(s.backup), old(Reading()))
    {
      hide Tried, FirstReached, Reachable;
      var t := Now();
      if t > connectAfter {
        var ok := Connect(s, spine);
      }
    }

    /** A new socket, connected if the time has come. */
    method Prepare(id: nat) returns (s: Socket)
      requires Valid()
      modifies this`connectAfter, this`attempts, this`ticks, this`draws, this`created, this`live
      ensures fresh(s) && s.id == id && !s.locked && !s.inuse && s.backup < endpoints
      ensures Sane() && Holders([s] + spine)
      ensures s.connected == Due(id % endpoints, old(Reading())) && (!s.connected ==> s.backup == id % endpoints)
      ensures Reading() == Looked(id % endpoints, old(Reading()))
    {
      s := new Socket(id, id % endpoints);
      assert s !in spine;
      ConnectNew(s);
    }

    /** Put a socket at the head of the list. */
    method Insert(s: Socket)
      requires Sane() && Holders([s] + spine) && s !in spine && s.backup < endpoints && s.inuse == s.locked
      modifies this`head, this`spine, s`next
      ensures Valid() && spine == [s] + old(spine)
    {
      s.next := head;
      head, spine := s, [s] + spine;
      assert spine[1..] == old(spine);
    }

    method AddSocket(id: nat)
      requires Valid()
      modifies this`connectAfter, this`attempts, this`ticks, this`draws, this`created, this`live, this`head, this`spine
      ensures Valid() && lastUsed == old(lastUsed)
      ensures |spine| == |old(spine)| + 1 && spine[1..] == old(spine) && fresh(spine[0])
      ensures spine[0].id == id && !spine[0].locked && (!spine[0].connected ==> spine[0].backup == id % endpoints)
      ensures spine[0].connected == Due(id % endpoints, old(Reading()))
      ensures Reading() == Looked(id % endpoints, old(Reading()))
    {
      var s := Prepare(id);
      Insert(s);
    }

    /** The readings when socket n is made, after those before it. */
    ghost function StartReading(g: Gauge, n: nat): Gauge
      requires endpoints > 0
    {
      if n == 0 then g else Looked((n - 1) % endpoints, StartReading(g, n - 1))
    }

    /** A new socket: free, with its first backup, and connected exactly if that was due when
        it was made. */
    ghost predicate Started(s: Socket, g: Gauge)
      requires endpoints > 0
      reads s
    {
      && !s.locked && s.connected == Due(s.id % endpoints, StartReading(g, s.id))
      && (!s.connected ==> s.backup == s.id % endpoints)
    }

    /** `redis_init_socketpool`. */
    method Fill(count: int)
      requires Valid() && spine == [] && lastUsed == null
      modifies this`connectAfter, this`attempts, this`ticks, this`draws, this`created, this`live, this`head, this`spine
      ensures Valid() && |spine| == (if count < 0 then 0 else count)
      ensures forall i :: 0 <= i < |spine| ==> fresh(spine[i]) && spine[i].id == |spine| - 1 - i
      ensures forall i :: 0 <= i < |spine| ==> Started(spine[i], old(Reading()))
      ensures lastUsed == null
    {
      hide Due, Looked;
      var i := 0;
      while i < count
        invariant Valid() && |spine| == i && lastUsed == null
        invariant forall j :: 0 <= j < |spine| ==> fresh(spine[j]) && spine[j].id == |spine| - 1 - j
        invariant forall j :: 0 <= j < |spine| ==> Started(spine[j], old(Reading()))
        invariant i <= count || i == 0
        invariant Reading() == StartReading(old(Reading()), i)
        decreases count - i
      {
        ghost var before := spine;
        AddSocket(i);
        assert forall j :: 1 <= j < |spine| ==> spine[j] == before[j - 1];
        i := i + 1;
      }
    }

    /** `redis_poolfree`: close every socket. No context is left. */
    method FreePool()
      requires Valid()
      modifies this`head, this`lastUsed, this`spine, this`live
      ensures Valid() && spine == [] && live == map[]
    {
      var cur := head;
      ghost var rest := spine;
      while cur != null
        invariant Linked(cur, rest) && NoDup(rest) && Numbered() && Holders(rest)
        decreases |rest|
      {
        var next := cur.next;
        assert Holds(cur) && cur !in rest[1..];
        assert forall s :: s in rest[1..] ==> s in rest && Holds(s);
        if cur.connected {
          FreeContext(cur.conn.value);
        }
        assert forall s :: s in rest ==> s == cur || s in rest[1..];
        cur, rest := next, rest[1..];
      }
      assert live == map[];
      spine := [];
      head, lastUsed := null, null;
    }
  }

  predicate Usable(e: Endpoint) {
    e.host != "" && 0 < e.port <= 65535
  }

  predicate Acceptable(config: Config) {
    config.endpoints != [] && config.sockets <= MAX_SOCKETS
    && forall i :: 0 <= i < |config.endpoints| ==> Usable(config.endpoints[i])
  }

  /** `redis_pool_create`: null if the configuration is not acceptable. */
  method Create(config: Config, world: World) returns (pool: Pool?)
    ensures pool != null <==> Acceptable(config)
    ensures pool != null ==>
      && fresh(pool) && pool.Valid() && pool.world == world && pool.endpoints == |config.endpoints|
      && pool.delay == (if config.delay <= 0 then -1 else config.delay) && pool.lastUsed == null
      && |pool.spine| == (if config.sockets < 0 then 0 else config.sockets)
      && forall i :: 0 <= i < |pool.spine| ==>
        fresh(pool.spine[i]) && pool.spine[i].id == |pool.spine| - 1 - i && pool.Started(pool.spine[i], Gauge(0, 0, 0))
  {
    if config.endpoints == [] || config.sockets > MAX_SOCKETS {
      return null;
    }
    for i := 0 to |config.endpoints|
      invariant forall j :: 0 <= j < i ==> Usable(config.endpoints[j])
    {
      if !Usable(config.endpoints[i]) {
        return null;
      }
    }
    var p := new Pool(world, |config.endpoints|, if config.delay <= 0 then -1 else config.delay);
    p.Fill(config.sockets);
    return p;
  }

  /** No two connected sockets share a context, and every live context belongs to one. */
  lemma Conservation(p: Pool)
    requires p.Valid()
    ensures p.live.Keys == set s | s in p.spine && s.connected :: s.conn.value
    ensures forall s, t :: s in p.spine && t in p.spine && s.connected && s.conn == t.conn ==> s == t
  {
    forall s | s in p.spine && s.connected
      ensures p.Holds(s)
    {
    }
  }
}
