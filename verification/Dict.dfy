/** The chained hash table: entries linked on the heap, a table of chain heads whose
    size is a power of two, and relinking into a larger table when it is full. */
module Dict {
  import opened Bytes

  const INITIAL_SIZE := 4

  /** What the tables of this client hold: a reply callback and its argument. */
  datatype Callback = Callback(fn: Option<nat>, privdata: nat)

  /** Bitwise and. */
  function BitAnd(a: nat, b: nat): nat {
    if a == 0 || b == 0 then 0 else (a % 2) * (b % 2) + 2 * BitAnd(a / 2, b / 2)
  }

  predicate PowerOfTwo(n: nat) {
    n == 1 || (n > 1 && n % 2 == 0 && PowerOfTwo(n / 2))
  }

  lemma Multiple(d: int, m: nat)
    requires d > 0
    ensures d * m >= m
  {
  }

  lemma ModUnique(x: nat, m: nat, q: nat, r: nat)
    requires m > 0 && r < m && x == q * m + r
    ensures x % m == r
  {
    var d := x / m - q;
    assert x == (x / m) * m + x % m;
    assert d * m == r - x % m;
    if d > 0 {
      Multiple(d, m);
    } else if d < 0 {
      Multiple(-d, m);
    }
  }

  lemma ModDouble(h: nat, half: nat, bit: nat)
    requires half > 0 && bit < 2
    ensures (2 * h + bit) % (2 * half) == 2 * (h % half) + bit
  {
    var q, r := h / half, h % half;
    assert h == q * half + r;
    assert 2 * h + bit == q * (2 * half) + (2 * r + bit);
    ModUnique(2 * h + bit, 2 * half, q, 2 * r + bit);
  }

  /** Masking with size - 1 is taking the remainder, for a power of two. */
  lemma {:induction false} MaskIsMod(h: nat, size: nat)
    requires PowerOfTwo(size)
    ensures BitAnd(h, size - 1) == h % size
    decreases size
  {
    if size > 1 {
      var half := size / 2;
      MaskIsMod(h / 2, half);
      assert (size - 1) / 2 == half - 1 && (size - 1) % 2 == 1;
      assert h == 2 * (h / 2) + h % 2;
      ModDouble(h / 2, half, h % 2);
      if h == 0 {
        assert 0 % size == 0;
      }
    }
  }

  /** Smallest table size that is enough. */
  method NextPower(size: nat) returns (i: nat)
    ensures PowerOfTwo(i) && i >= INITIAL_SIZE && i >= size
    ensures i > INITIAL_SIZE ==> i / 2 < size
  {
    i := INITIAL_SIZE;
    assert PowerOfTwo(1) && PowerOfTwo(2);
    while i < size
      invariant PowerOfTwo(i) && i >= INITIAL_SIZE
      invariant i > INITIAL_SIZE ==> i / 2 < size
      decreases size - i
    {
      i := i * 2;
    }
  }

  class Entry {
    const key: bytes
    var val: Callback
    var next: Entry?

    constructor (key: bytes, val: Callback, next: Entry?)
      ensures this.key == key && this.val == val && this.next == next
    {
      this.key, this.val, this.next := key, val, next;
    }
  }

  function Elems<T>(c: seq<T>): set<T> {
    set x | x in c
  }

  predicate NoDup<T(==)>(c: seq<T>) {
    c == [] || (c[0] !in c[1..] && NoDup(c[1..]))
  }

  /** Of c, `rest` is left, and the others have joined `moved` in `all`. */
  predicate Left<T(==)>(c: seq<T>, rest: seq<T>, moved: set<T>, all: set<T>) {
    && NoDup(rest) && Elems(rest) <= Elems(c)
    && Elems(rest) !! all && all + Elems(rest) == moved + Elems(c)
  }

  lemma NoDupTail<T>(c: seq<T>)
    requires c != [] && NoDup(c)
    ensures Elems(c) == {c[0]} + Elems(c[1..]) && c[0] !in Elems(c[1..]) && NoDup(c[1..])
  {
    assert c == [c[0]] + c[1..];
  }

  lemma LeftNext<T>(c: seq<T>, rest: seq<T>, moved: set<T>, all: set<T>)
    requires Left(c, rest, moved, all) && rest != []
    ensures rest[0] in Elems(c) && rest[0] !in all && Left(c, rest[1..], moved, all + {rest[0]})
  {
    NoDupTail(rest);
  }

  lemma LeftNone<T>(c: seq<T>, rest: seq<T>, moved: set<T>, all: set<T>)
    requires Left(c, rest, moved, all) && rest == []
    ensures all == moved + Elems(c)
  {
  }

  lemma {:induction false} NoDupSnoc<T>(c: seq<T>, x: T)
    ensures NoDup(c + [x]) <==> NoDup(c) && x !in c
  {
    if c == [] {
      assert c + [x] == [x];
    } else {
      assert (c + [x])[1..] == c[1..] + [x];
      NoDupSnoc(c[1..], x);
    }
  }

  /** The entries c are linked one after the other, starting from head. */
  ghost predicate Chain(head: Entry?, c: seq<Entry>)
    reads c`next
  {
    if c == [] then head == null else head == c[0] && Chain(c[0].next, c[1..])
  }

  lemma HeadApart(pre: seq<Entry>, rest: seq<Entry>)
    requires rest != []
    ensures pre + [rest[0]] + rest[1..] == pre + rest
  {
  }

  /** Bucket of a key in a table of the given size. */
  function Bucket(hash: bytes -> nat, key: bytes, size: nat): (b: nat)
    requires size > 0
    ensures b < size
  {
    hash(key) % size
  }

  lemma SubsetSize<T>(a: set<T>, b: set<T>)
    requires a <= b
    ensures |a| <= |b|
    ensures |a| == |b| ==> a == b
  {
    assert b == a + (b - a);
    assert |b| == |a| + |b - a|;
  }

  lemma {:induction false} KeyCount(es: set<Entry>)
    requires forall e, e' :: e in es && e' in es && e.key == e'.key ==> e == e'
    ensures |set e | e in es :: e.key| == |es|
  {
    if es != {} {
      var e :| e in es;
      var rest := es - {e};
      KeyCount(rest);
      assert (set x | x in es :: x.key) == (set x | x in rest :: x.key) + {e.key};
    }
  }

  lemma SortedInsert(hash: bytes -> nat, n: nat, cs: seq<seq<Entry>>, es: set<Entry>, e: Entry)
    requires n > 0 && Dict.Sorted(hash, n, cs, es) && e !in es
    ensures var h := Bucket(hash, e.key, n); Dict.Sorted(hash, n, cs[h := [e] + cs[h]], es + {e})
  {
    var h := Bucket(hash, e.key, n);
    var cs' := cs[h := [e] + cs[h]];
    assert cs'[h][1..] == cs[h];
    forall b | 0 <= b < n
      ensures NoDup(cs'[b])
    {
      assert NoDup(cs[b]);
    }
    forall x | x in es + {e}
      ensures x in cs'[Bucket(hash, x.key, n)]
    {
      if x == e {
        assert cs'[h][0] == e;
      }
    }
  }

  lemma {:induction false} NoDupSize<T>(c: seq<T>)
    requires NoDup(c)
    ensures |Elems(c)| == |c|
  {
    if c != [] {
      NoDupSize(c[1..]);
      NoDupTail(c);
    }
  }

  lemma MapOfInsert(m: map<bytes, Callback>, es: set<Entry>, e: Entry)
    requires Dict.MapOf(m, es) && e !in es && e.key !in m
    ensures Dict.MapOf(m[e.key := e.val], es + {e})
  {
    var m' := m[e.key := e.val];
    forall k | k in m'
      ensures exists x :: x in es + {e} && x.key == k
    {
      if k == e.key {
        assert e in es + {e};
      } else {
        var x :| x in es && x.key == k;
        assert x in es + {e};
      }
    }
  }

  /** Following the entries pre from head leads to `to`. */
  ghost predicate ChainTo(head: Entry?, pre: seq<Entry>, to: Entry?)
    reads pre`next
  {
    if pre == [] then head == to else head == pre[0] && ChainTo(pre[0].next, pre[1..], to)
  }

  lemma ChainToStep(head: Entry?, pre: seq<Entry>, to: Entry)
    requires ChainTo(head, pre, to)
    ensures ChainTo(head, pre + [to], to.next)
  {
    if pre != [] {
      ChainToStep(pre[0].next, pre[1..], to);
      assert (pre + [to])[1..] == pre[1..] + [to];
    }
  }

  /** Without x, there are still no duplicates, and x is not among the rest. */
  lemma {:induction false} NoDupRemove<T>(a: seq<T>, x: T, b: seq<T>)
    requires NoDup(a + [x] + b)
    ensures NoDup(a + b) && x !in a + b && x !in a && x !in b && NoDup(a) && Elems(a) !! Elems(b)
  {
    var c := a + [x] + b;
    if a == [] {
      assert c[1..] == b && a + b == b;
    } else {
      assert c[1..] == a[1..] + [x] + b && (a + b)[1..] == a[1..] + b;
      NoDupRemove(a[1..], x, b);
      assert forall y :: y in a[1..] + b ==> y in a[1..] + [x] + b;
      assert x in a[1..] + [x] + b;
      assert forall y :: y in b ==> y in a[1..] + b;
      assert forall y :: y in a[1..] ==> y in a[1..] + b;
    }
  }

  lemma SortedRemove(hash: bytes -> nat, n: nat, cs: seq<seq<Entry>>, es: set<Entry>,
                     h: nat, pre: seq<Entry>, e: Entry, post: seq<Entry>)
    requires Dict.Sorted(hash, n, cs, es) && h < n && cs[h] == pre + [e] + post
    ensures e in es && Bucket(hash, e.key, n) == h
    ensures Dict.Sorted(hash, n, cs[h := pre + post], es - {e})
  {
    var cs' := cs[h := pre + post];
    assert e == cs[h][|pre|];
    NoDupRemove(pre, e, post);
    forall b, x | 0 <= b < n && x in cs'[b]
      ensures x in es - {e} && Bucket(hash, x.key, n) == b
    {
      assert x in cs[b] by {
        if b == h {
          assert x in pre || x in post;
          assert x in pre + [e] + post;
        }
      }
      assert b == h ==> cs'[b] == pre + post && e !in pre + post;
      assert e in cs[h] && Bucket(hash, e.key, n) == h;
    }
    forall x | x in es - {e}
      ensures x in cs'[Bucket(hash, x.key, n)]
    {
      if Bucket(hash, x.key, n) == h {
        assert x in pre + [e] + post;
      }
    }
  }

  lemma MapOfRemove(m: map<bytes, Callback>, es: set<Entry>, e: Entry)
    requires Dict.MapOf(m, es) && e in es
    ensures Dict.MapOf(m - {e.key}, es - {e})
  {
    var m' := m - {e.key};
    forall k | k in m'
      ensures exists x :: x in es - {e} && x.key == k
    {
      var x :| x in es && x.key == k;
      assert x in es - {e};
    }
  }

  lemma ChainToLast(head: Entry?, pre: seq<Entry>, to: Entry?)
    requires ChainTo(head, pre, to) && pre != []
    ensures ChainTo(head, pre[..|pre| - 1], pre[|pre| - 1]) && pre[|pre| - 1].next == to
  {
    if |pre| > 1 {
      ChainToLast(pre[0].next, pre[1..], to);
      assert pre[..|pre| - 1][1..] == pre[1..][..|pre| - 2];
    }
  }

  lemma {:induction false} NoDupSplit<T>(a: seq<T>, b: seq<T>)
    requires NoDup(a + b)
    ensures NoDup(a) && NoDup(b) && Elems(a) !! Elems(b)
  {
    if a == [] {
      assert a + b == b;
    } else {
      assert (a + b)[1..] == a[1..] + b;
      NoDupSplit(a[1..], b);
      assert forall x :: x in b ==> x in a[1..] + b;
      assert forall x :: x in a[1..] ==> x in a[1..] + b;
    }
  }

  lemma ChainToJoin(head: Entry?, init: seq<Entry>, last: Entry, post: seq<Entry>)
    requires ChainTo(head, init, last) && Chain(last.next, post)
    ensures Chain(head, init + [last] + post)
  {
    var c := init + [last] + post;
    if init == [] {
      assert c[1..] == post;
    } else {
      ChainToJoin(init[0].next, init[1..], last, post);
      assert c[1..] == init[1..] + [last] + post;
    }
  }

  /** Let the predecessor of de point past it. */
  method Bypass(head: Entry?, ghost pre: seq<Entry>, de: Entry, ghost post: seq<Entry>, prev: Entry)
    requires pre != [] && prev == pre[|pre| - 1] && NoDup(pre) && Elems(pre) !! Elems(post) && prev != de
    requires ChainTo(head, pre, de) && Chain(de.next, post)
    modifies prev`next
    ensures Chain(head, pre + post)
  {
    ghost var init := pre[..|pre| - 1];
    ChainToLast(head, pre, de);
    assert pre == init + [prev];
    NoDupSplit(init, [prev]);
    assert prev in Elems([prev]) && prev in Elems(pre);
    assert prev !in init && prev !in post;
    prev.next := de.next;
    ChainToJoin(head, init, prev, post);
    assert init + [prev] + post == pre + post;
  }

  class Dict {
    const hash: bytes -> nat
    var table: array<Entry?>
    var size: nat
    var sizemask: nat
    var used: nat

    /** The entries of each bucket in chain order, all entries, and the map they make. */
    ghost var chains: seq<seq<Entry>>
    ghost var nodes: set<Entry>
    ghost var M: map<bytes, Callback>

    /** Each of the entries is in the bucket of its key, once, and nothing else is. */
    static ghost predicate Sorted(hash: bytes -> nat, n: nat, cs: seq<seq<Entry>>, es: set<Entry>) {
      && |cs| == n
      && (forall b :: 0 <= b < n ==> NoDup(cs[b]))
      && (forall b, e :: 0 <= b < n && e in cs[b] ==> e in es && Bucket(hash, e.key, n) == b)
      && (forall e :: e in es ==> n > 0 && e in cs[Bucket(hash, e.key, n)])
    }

    /** A table of n chains that holds exactly the entries es. */
    static ghost predicate Linked(hash: bytes -> nat, t: array<Entry?>, n: nat, cs: seq<seq<Entry>>, es: set<Entry>)
      reads t, es`next
    {
      && t.Length == n
      && Sorted(hash, n, cs, es)
      && (forall b :: 0 <= b < n ==> Chain(t[b], cs[b]))
    }

    ghost predicate Placement()
      reads this`table, this`size, this`chains, this`nodes
    {
      table.Length == size && Sorted(hash, size, chains, nodes)
    }

    /** Bucket b is linked in the order of its chain. */
    ghost predicate ChainAt(b: nat)
      requires Placement() && b < size
      reads this`table, this`size, this`chains, this`nodes, table, chains[b]`next
    {
      Chain(table[b], chains[b])
    }

    static ghost predicate MapOf(m: map<bytes, Callback>, es: set<Entry>)
      reads es`val
    {
      && (forall e :: e in es ==> e.key in m && m[e.key] == e.val)
      && (forall k :: k in m ==> exists e :: e in es && e.key == k)
      && (forall e, e' :: e in es && e' in es && e.key == e'.key ==> e == e')
    }

    ghost predicate Valid()
      reads this, table, nodes
    {
      && Linked(hash, table, size, chains, nodes)
      && (size == 0 || (PowerOfTwo(size) && size >= INITIAL_SIZE))
      && sizemask == (if size == 0 then 0 else size - 1)
      && used == |nodes| <= size
      && MapOf(M, nodes)
    }

    constructor (hash: bytes -> nat)
      ensures Valid() && fresh(table) && nodes == {} && M == map[] && this.hash == hash
    {
      this.hash := hash;
      table := new Entry?[0];
      size, sizemask, used := 0, 0, 0;
      chains, nodes, M := [], {}, map[];
    }

    /** The bucket of a key, by masking its hash. */
    method Index(key: bytes) returns (h: nat)
      requires Valid() && size > 0
      ensures h == Bucket(hash, key, size)
    {
      MaskIsMod(hash(key), size);
      h := BitAnd(hash(key), sizemask);
    }

    /** A key of the map is on the chain of its bucket. */
    lemma KeyOnChain(key: bytes)
      requires Valid() && size > 0
      ensures key in M ==> exists e :: e in chains[Bucket(hash, key, size)] && e.key == key
    {
    }

    /** The first entry with the key on a chain. */
    static method Search(head: Entry?, ghost c: seq<Entry>, key: bytes) returns (he: Entry?)
      requires Chain(head, c)
      ensures he == null ==> forall e :: e in c ==> e.key != key
      ensures he != null ==> he in c && he.key == key
    {
      he := head;
      ghost var j := 0;
      assert c[0..] == c;
      while he != null
        invariant j <= |c| && Chain(he, c[j..])
        invariant forall i :: 0 <= i < j ==> c[i].key != key
        decreases |c| - j
      {
        assert he == c[j] && c[j..][1..] == c[j + 1..];
        if key == he.key {
          return;
        }
        he, j := he.next, j + 1;
      }
    }

    /** The entry with the key, searched along the chain of its bucket. */
    method Find(key: bytes) returns (he: Entry?)
      requires Valid()
      ensures he == null <==> key !in M
      ensures he != null ==> he in nodes && he.key == key && he.val == M[key]
    {
      if size == 0 {
        return null;
      }
      var h := Index(key);
      he := Search(table[h], chains[h], key);
      KeyOnChain(key);
    }

    /** The number of entries is the size of the map. */
    lemma UsedIsSize()
      requires Valid()
      ensures used == |M|
    {
      KeyCount(nodes);
      assert (set e | e in nodes :: e.key) == M.Keys;
    }

    // ----------------------------------------------------------------------
    // Growing

    /** Move one entry to the front of its bucket in the new table. */
    static method Relink(hash: bytes -> nat, he: Entry, ntable: array<Entry?>, nsize: nat,
                         ghost nchains: seq<seq<Entry>>, ghost moved: set<Entry>)
      returns (ghost nchains': seq<seq<Entry>>)
      requires PowerOfTwo(nsize)
      requires Linked(hash, ntable, nsize, nchains, moved) && he !in moved
      modifies he`next, ntable
      ensures Linked(hash, ntable, nsize, nchains', moved + {he})
    {
      MaskIsMod(hash(he.key), nsize);
      var h := BitAnd(hash(he.key), nsize - 1);
      assert Chain(ntable[h], nchains[h]);
      he.next := ntable[h];
      ntable[h] := he;
      nchains' := nchains[h := [he] + nchains[h]];
      SortedInsert(hash, nsize, nchains, moved, he);
      assert nchains'[h][1..] == nchains[h];
      forall b | 0 <= b < nsize
        ensures Chain(ntable[b], nchains'[b])
      {
        assert he !in nchains[b];
        assert old(Chain(ntable[b], nchains[b]));
      }
    }

    /** Move the first entry of what is left of chain c, with `all` in the new table. */
    method MoveFirst(he: Entry, ghost c: seq<Entry>, ghost rest: seq<Entry>, ntable: array<Entry?>, nsize: nat,
                     ghost nchains: seq<seq<Entry>>, ghost moved: set<Entry>, ghost all: set<Entry>)
      returns (next: Entry?, ghost nchains': seq<seq<Entry>>)
      requires PowerOfTwo(nsize) && Linked(hash, ntable, nsize, nchains, all)
      requires Chain(he, rest) && Left(c, rest, moved, all) && used >= |rest|
      modifies this`used, he`next, ntable
      ensures Linked(hash, ntable, nsize, nchains', all + {he})
      ensures rest != [] && Chain(next, rest[1..]) && Left(c, rest[1..], moved, all + {he})
      ensures used == old(used) - 1
    {
      LeftNext(c, rest, moved, all);
      next := he.next;
      nchains' := Relink(hash, he, ntable, nsize, nchains, all);
      used := used - 1;
    }

    /** Move all entries of one old bucket, following the chain. */
    method MoveChain(head: Entry?, ghost c: seq<Entry>, ntable: array<Entry?>, nsize: nat,
                     ghost nchains: seq<seq<Entry>>, ghost moved: set<Entry>)
      returns (ghost nchains': seq<seq<Entry>>)
      requires PowerOfTwo(nsize) && Linked(hash, ntable, nsize, nchains, moved)
      requires Chain(head, c) && NoDup(c) && Elems(c) !! moved && used >= |c|
      modifies this`used, Elems(c)`next, ntable
      ensures Linked(hash, ntable, nsize, nchains', moved + Elems(c))
      ensures used == old(used) - |c|
    {
      nchains' := nchains;
      var he := head;
      ghost var rest: seq<Entry>, all: set<Entry> := c, moved;
      while he != null
        invariant Chain(he, rest) && Left(c, rest, moved, all)
        invariant Linked(hash, ntable, nsize, nchains', all)
        invariant used - |rest| == old(used) - |c|
        decreases |rest|
      {
        ghost var entry: Entry := he;
        he, nchains' := MoveFirst(he, c, rest, ntable, nsize, nchains', moved, all);
        rest, all := rest[1..], all + {entry};
      }
      LeftNone(c, rest, moved, all);
    }

    /** The entries of the first i buckets. */
    ghost function Below(i: nat): set<Entry>
      requires Placement()
      reads this`table, this`size, this`chains, this`nodes
    {
      set e | e in nodes && Bucket(hash, e.key, size) < i
    }

    lemma BelowStep(i: nat)
      requires Placement() && i < size
      ensures Below(i + 1) == Below(i) + Elems(chains[i]) && Below(i) !! Elems(chains[i])
      ensures forall b :: i < b < size ==> Elems(chains[b]) !! Elems(chains[i])
      ensures |Below(i + 1)| == |Below(i)| + |chains[i]| <= |nodes|
    {
      NoDupSize(chains[i]);
      SubsetSize(Below(i + 1), nodes);
    }

    lemma BelowAll()
      requires Placement()
      ensures Below(0) == {} && Below(size) == nodes
    {
    }

    /** Relink bucket i of the old table, when those before it have been relinked. */
    method MoveBucket(i: nat, ntable: array<Entry?>, nsize: nat, ghost nchains: seq<seq<Entry>>)
      returns (ghost nchains': seq<seq<Entry>>)
      requires Placement() && i < size && PowerOfTwo(nsize) && ntable != table
      requires Linked(hash, ntable, nsize, nchains, Below(i))
      requires forall b :: i <= b < size ==> ChainAt(b)
      requires used == |nodes| - |Below(i)|
      modifies this`used, nodes`next, ntable
      ensures Linked(hash, ntable, nsize, nchains', Below(i + 1))
      ensures forall b :: i < b < size ==> ChainAt(b)
      ensures used == |nodes| - |Below(i + 1)|
    {
      BelowStep(i);
      assert ChainAt(i);
      nchains' := nchains;
      if table[i] != null {
        nchains' := MoveChain(table[i], chains[i], ntable, nsize, nchains, Below(i));
      }
      forall b | i < b < size
        ensures ChainAt(b)
      {
        assert old(ChainAt(b));
      }
    }

    /** When the count is used up, or the buckets, every entry has been relinked. */
    lemma MovedAll(i: nat)
      requires Placement() && i <= size && used == |nodes| - |Below(i)| && (i == size || used == 0)
      ensures Below(i) == nodes && used == 0
    {
      BelowAll();
      SubsetSize(Below(i), nodes);
    }

    /** An empty table. */
    static lemma EmptyTable(hash: bytes -> nat, t: array<Entry?>, n: nat)
      requires t.Length == n && forall b :: 0 <= b < n ==> t[b] == null
      ensures Linked(hash, t, n, seq(n, _ => []), {})
    {
    }

    /** Relink every bucket of the old table into the new one. */
    method MoveAll(ntable: array<Entry?>, nsize: nat) returns (ghost nchains: seq<seq<Entry>>)
      requires Placement() && PowerOfTwo(nsize) && ntable != table
      requires ntable.Length == nsize && forall b :: 0 <= b < nsize ==> ntable[b] == null
      requires forall b :: 0 <= b < size ==> ChainAt(b)
      requires used == |nodes|
      modifies this`used, nodes`next, ntable
      ensures Linked(hash, ntable, nsize, nchains, nodes) && used == 0
    {
      nchains := seq(nsize, _ => []);
      EmptyTable(hash, ntable, nsize);
      var i := 0;
      BelowAll();
      while i < size && used > 0
        invariant i <= size && Linked(hash, ntable, nsize, nchains, Below(i))
        invariant forall b :: i <= b < size ==> ChainAt(b)
        invariant used == |nodes| - |Below(i)|
        decreases size - i
      {
        nchains := MoveBucket(i, ntable, nsize, nchains);
        i := i + 1;
      }
      MovedAll(i);
    }

    /** The header fields, and what they stand for, after a change of the table. */
    method Adopt(ntable: array<Entry?>, nsize: nat, total: nat,
                 ghost nchains: seq<seq<Entry>>, ghost nnodes: set<Entry>, ghost m: map<bytes, Callback>)
      requires Linked(hash, ntable, nsize, nchains, nnodes) && MapOf(m, nnodes)
      requires PowerOfTwo(nsize) && nsize >= INITIAL_SIZE
      requires total == |nnodes| <= nsize
      modifies this
      ensures Valid() && table == ntable && size == nsize
      ensures chains == nchains && nodes == nnodes && M == m
    {
      table, size, sizemask, used := ntable, nsize, nsize - 1, total;
      chains, nodes, M := nchains, nnodes, m;
    }

    /** Move to a larger table: every entry is relinked exactly once, so the map stays. */
    method Expand(wanted: nat) returns (ok: bool)
      requires Valid()
      modifies this, nodes`next
      ensures Valid() && M == old(M) && nodes == old(nodes) && ok == (old(used) <= wanted)
      ensures ok ==> fresh(table) && size >= wanted
      ensures !ok ==> size == old(size) && table == old(table)
    {
      var realsize := NextPower(wanted);
      if used > wanted {
        return false;
      }
      var ntable := new Entry?[realsize](_ => null);
      var total := used;
      ghost var nchains := MoveAll(ntable, realsize);
      assert used == 0;
      Adopt(ntable, realsize, total, nchains, nodes, M);
      return true;
    }

    // ----------------------------------------------------------------------
    // Changing the map

    /** Make room for one more entry if the table is full or not there yet. */
    method ExpandIfNeeded() returns (ok: bool)
      requires Valid()
      modifies this, nodes`next
      ensures Valid() && ok && M == old(M) && nodes == old(nodes) && used < size
      ensures table == old(table) || fresh(table)
    {
      if size == 0 {
        ok := Expand(INITIAL_SIZE);
      } else if used == size {
        ok := Expand(size * 2);
      } else {
        ok := true;
      }
    }

    /** The bucket for a new key, or -1 if the key is there already. */
    method KeyIndex(key: bytes) returns (index: int)
      requires Valid()
      modifies this, nodes`next
      ensures Valid() && M == old(M) && nodes == old(nodes) && used < size
      ensures table == old(table) || fresh(table)
      ensures index == if key in M then -1 else Bucket(hash, key, size)
    {
      var ok := ExpandIfNeeded();
      var h := Index(key);
      var he := Search(table[h], chains[h], key);
      if he != null {
        return -1;
      }
      KeyOnChain(key);
      return h;
    }

    method LinkFront(h: nat, entry: Entry)
      requires Linked(hash, table, size, chains, nodes) && entry !in nodes && h < size && entry.next == table[h]
      requires h == Bucket(hash, entry.key, size)
      modifies table
      ensures Linked(hash, table, size, chains[h := [entry] + chains[h]], nodes + {entry})
    {
      ghost var c := chains[h];
      SortedInsert(hash, size, chains, nodes, entry);
      assert ([entry] + c)[1..] == c;
      table[h] := entry;
      forall b | 0 <= b < size
        ensures Chain(table[b], chains[h := [entry] + c][b])
      {
        assert old(Chain(table[b], chains[b]));
      }
    }

    /** Link an entry in front of bucket h. */
    method Insert(h: nat, entry: Entry)
      requires Valid() && used < size && h < size && entry !in nodes && entry.key !in M
      requires h == Bucket(hash, entry.key, size) && entry.next == table[h]
      modifies this, table
      ensures Valid() && table == old(table) && nodes == old(nodes) + {entry}
      ensures M == old(M)[entry.key := entry.val]
    {
      ghost var cs, es, m := chains[h := [entry] + chains[h]], nodes + {entry}, M[entry.key := entry.val];
      LinkFront(h, entry);
      MapOfInsert(M, nodes, entry);
      assert |es| == used + 1;
      Adopt(table, size, used + 1, cs, es, m);
    }

    /** `dictAdd`: a new entry at the front of its bucket, unless the key is there. */
    method Add(key: bytes, val: Callback) returns (ok: bool)
      requires Valid()
      modifies this, table, nodes`next
      ensures Valid() && fresh(nodes - old(nodes)) && (table == old(table) || fresh(table))
      ensures ok == (key !in old(M))
      ensures M == if ok then old(M)[key := val] else old(M)
      ensures !ok ==> nodes == old(nodes)
    {
      hide Sorted, MapOf, Placement;
      var index := KeyIndex(key);
      if index == -1 {
        return false;
      }
      var entry := new Entry(key, val, table[index]);
      Insert(index, entry);
      return true;
    }

    method SetVal(entry: Entry, val: Callback)
      requires Valid() && entry in nodes
      modifies this`M, entry`val
      ensures Valid() && M == old(M)[entry.key := val]
    {
      entry.val := val;
      M := M[entry.key := val];
      assert M.Keys == old(M).Keys;
    }

    /** `dictReplace`: set the value of a key; whether the key is new. */
    method Replace(key: bytes, val: Callback) returns (added: bool)
      requires Valid()
      modifies this, table, nodes
      ensures Valid() && fresh(nodes - old(nodes)) && (table == old(table) || fresh(table))
      ensures added == (key !in old(M)) && M == old(M)[key := val]
    {
      added := Add(key, val);
      if !added {
        var entry := Find(key);
        SetVal(entry, val);
      }
    }

    /** The place of a key on its chain: what is before it, and its predecessor. */
    method Locate(head: Entry?, ghost c: seq<Entry>, key: bytes)
      returns (prev: Entry?, de: Entry?, ghost pre: seq<Entry>, ghost rest: seq<Entry>)
      requires Chain(head, c)
      ensures c == pre + rest && ChainTo(head, pre, de) && Chain(de, rest)
      ensures de == null ==> forall e :: e in c ==> e.key != key
      ensures de != null ==> de.key == key && de in c
      ensures if prev == null then pre == [] else pre != [] && prev == pre[|pre| - 1]
    {
      prev, de := null, head;
      pre, rest := [], c;
      while de != null
        invariant c == pre + rest && ChainTo(head, pre, de) && Chain(de, rest)
        invariant forall e :: e in pre ==> e.key != key
        invariant if prev == null then pre == [] else pre != [] && prev == pre[|pre| - 1]
        decreases |rest|
      {
        if key == de.key {
          assert de == c[|pre|];
          return;
        }
        ChainToStep(head, pre, de);
        prev := de;
        pre, rest := pre + [de], rest[1..];
        de := de.next;
      }
    }

    /** Let the link to de, from its predecessor or from the table, go past it. */
    method DropLink(h: nat, prev: Entry?, de: Entry, ghost pre: seq<Entry>, ghost post: seq<Entry>)
      requires Linked(hash, table, size, chains, nodes) && h < size && chains[h] == pre + [de] + post
      requires ChainTo(table[h], pre, de) && Chain(de.next, post)
      requires if prev == null then pre == [] else pre != [] && prev == pre[|pre| - 1]
      modifies table, nodes`next
      ensures forall b :: 0 <= b < size ==> Chain(table[b], chains[h := pre + post][b])
    {
      NoDupRemove(pre, de, post);
      if prev != null {
        assert prev == chains[h][|pre| - 1];
        assert prev in chains[h] && prev in nodes;
        assert prev in pre && prev in pre + post;
        Bypass(table[h], pre, de, post, prev);
        forall b | 0 <= b < size && b != h
          ensures Chain(table[b], chains[b])
        {
          assert old(Chain(table[b], chains[b]));
          assert prev !in chains[b];
        }
      } else {
        assert pre + post == post;
        table[h] := de.next;
        assert forall b :: 0 <= b < size && b != h ==> old(Chain(table[b], chains[b]));
      }
    }

    /** Take entry de, which follows `pre` on bucket h, out of the table. */
    method Unlink(h: nat, prev: Entry?, de: Entry, ghost pre: seq<Entry>, ghost post: seq<Entry>)
      requires Valid() && h < size && chains[h] == pre + [de] + post
      requires ChainTo(table[h], pre, de) && Chain(de.next, post)
      requires if prev == null then pre == [] else pre != [] && prev == pre[|pre| - 1]
      modifies this, table, nodes`next
      ensures Valid() && table == old(table) && size == old(size)
      ensures nodes == old(nodes) - {de} && M == old(M) - {de.key}
      ensures chains == old(chains)[h := pre + post]
    {
      ghost var cs, es, m := chains[h := pre + post], nodes - {de}, M - {de.key};
      assert de == chains[h][|pre|];
      SortedRemove(hash, size, chains, nodes, h, pre, de, post);
      MapOfRemove(M, nodes, de);
      DropLink(h, prev, de, pre, post);
      Adopt(table, size, used - 1, cs, es, m);
    }

    /** `dictDelete`: unlink the entry with the key from its chain, where it sat
        between `pre` and `post`. */
    method Delete(key: bytes) returns (ok: bool, ghost gone: Entry?, ghost pre: seq<Entry>, ghost post: seq<Entry>)
      requires Valid()
      modifies this, table, nodes`next
      ensures Valid() && table == old(table) && size == old(size)
      ensures ok == (key in old(M)) && M == old(M) - {key}
      ensures !ok ==> nodes == old(nodes) && chains == old(chains)
      ensures ok ==> gone in old(nodes) && gone.key == key && nodes == old(nodes) - {gone}
      ensures ok ==>
        var h := Bucket(hash, key, size);
        && old(chains)[h] == pre + [gone] + post
        && chains == old(chains)[h := pre + post]
    {
      gone, pre, post := null, [], [];
      if size == 0 {
        return false, gone, pre, post;
      }
      var h := Index(key);
      ghost var rest;
      var prev, de;
      prev, de, pre, rest := Locate(table[h], chains[h], key);
      if de == null {
        KeyOnChain(key);
        return false, gone, pre, post;
      }
      gone, post := de, rest[1..];
      HeadApart(pre, rest);
      Unlink(h, prev, de, pre, post);
      return true, gone, pre, post;
    }
  }
}
