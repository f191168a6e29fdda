/** Iterating over a table: every entry comes once, even if the caller deletes each
    entry as soon as it has been handed out. */
module DictIterator {
  import opened Bytes
  import opened Dict

  /** The sequence c ends with t. */
  ghost predicate Ends(c: seq<Entry>, t: seq<Entry>) {
    |t| <= |c| && c[|c| - |t|..] == t
  }

  lemma ChainSuffix(head: Entry?, a: seq<Entry>, b: seq<Entry>)
    requires Chain(head, a + b) && b != []
    ensures Chain(b[0], b)
  {
    if a == [] {
      assert a + b == b;
    } else {
      assert (a + b)[1..] == a[1..] + b;
      ChainSuffix(a[0].next, a[1..], b);
    }
  }

  /** What ends a chain is a chain. */
  lemma FirstOfEnd(head: Entry?, c: seq<Entry>, t: seq<Entry>)
    requires Chain(head, c) && NoDup(c) && Ends(c, t) && t != []
    ensures t[0] in c && t[0] !in t[1..]
    ensures t[0].next == (if |t| > 1 then t[1] else null)
  {
    var k := |c| - |t|;
    assert c[..k] + t == c;
    ChainSuffix(head, c[..k], t);
    NoDupSplit(c[..k], t);
    assert t[0] == c[k];
    if |t| > 1 {
      assert t[1..][0] == t[1];
    }
  }

  /** The entries of the rest of the current bucket and of all later buckets. */
  function ToCome(nodes: set<Entry>, hash: bytes -> nat, size: nat, todo: seq<Entry>, index: int): set<Entry> {
    set e | e in nodes && size > 0 && (e in todo || Bucket(hash, e.key, size) > index)
  }

  /** An entry of the current bucket that has been handed out is not to come. */
  lemma ToComeWithout(nodes: set<Entry>, hash: bytes -> nat, size: nat, todo: seq<Entry>, index: int, e: Entry)
    requires size > 0 && e !in todo && Bucket(hash, e.key, size) == index
    ensures ToCome(nodes - {e}, hash, size, todo, index) == ToCome(nodes, hash, size, todo, index)
  {
  }

  lemma HeadOfChain(ht: Dict, b: nat)
    requires ht.Valid() && b < ht.size
    ensures ht.table[b] == (if ht.chains[b] == [] then null else ht.chains[b][0])
  {
    assert Chain(ht.table[b], ht.chains[b]);
  }

  class Iterator {
    const ht: Dict
    var index: int
    var entry: Entry?
    var nextEntry: Entry?

    /** What is still to come of the current bucket. */
    ghost var todo: seq<Entry>

    /** The cursor fits the table; that the table is in order is said separately. */
    ghost predicate Valid()
      reads this, ht`size, ht`chains
    {
      && -1 <= index && |ht.chains| == ht.size
      && (index == -1 || index >= ht.size ==> entry == null)
      && (entry == null ==> todo == [])
      && (entry != null ==> nextEntry == (if todo == [] then null else todo[0]))
      && (0 <= index < ht.size ==> Ends(ht.chains[index], todo))
    }

    /** The entries that are still to be handed out. */
    ghost function Ahead(): set<Entry>
      reads this, ht`size, ht`nodes
    {
      ToCome(ht.nodes, ht.hash, ht.size, todo, index)
    }

    /** `dictGetIterator`. */
    constructor (ht: Dict)
      requires ht.Valid()
      ensures Valid() && this.ht == ht && Ahead() == ht.nodes
    {
      this.ht := ht;
      index, entry, nextEntry := -1, null, null;
      todo := [];
    }

    /** The first entry to come: its successor, and where it is not. */
    lemma FirstToCome()
      requires ht.Valid() && 0 <= index < ht.size && Ends(ht.chains[index], todo) && todo != []
      ensures todo[0].next == (if |todo| > 1 then todo[1] else null)
      ensures todo[0] in ht.nodes && todo[0] !in todo[1..]
      ensures Bucket(ht.hash, todo[0].key, ht.size) == index
    {
      var c := ht.chains[index];
      FirstOfEnd(ht.table[index], c, todo);
      assert todo[0] in c;
    }

    /** Hand out the first entry to come. */
    method TakeFirst()
      requires ht.Valid() && 0 <= index < ht.size && Ends(ht.chains[index], todo)
      requires todo != [] && entry == todo[0]
      modifies this`nextEntry, this`todo
      ensures Valid() && Ahead() == old(Ahead()) - {entry} && entry in old(Ahead())
      ensures Ends(ht.chains[index], [entry] + todo)
    {
      FirstToCome();
      nextEntry := entry.next;
      assert [entry] + todo[1..] == todo;
      todo := todo[1..];
    }

    /** The current bucket is done: go to the next one, if there is one. */
    method NextBucket() returns (ok: bool)
      requires ht.Valid() && Valid() && entry == null
      modifies this
      ensures index == old(index) + 1 && ok == (index < ht.size)
      ensures if ok then Ahead() == old(Ahead()) else Valid() && Ahead() == old(Ahead()) == {}
      ensures ok ==> todo == ht.chains[index] && entry == if todo == [] then null else todo[0]
    {
      index := index + 1;
      if index >= ht.size {
        return false;
      }
      HeadOfChain(ht, index);
      entry := ht.table[index];
      todo := ht.chains[index];
      return true;
    }

    /** One turn of the search for the next entry: it is found, or there is none left,
        or the search goes on. */
    method Turn() returns (ended: bool)
      requires ht.Valid() && Valid()
      modifies this
      ensures Valid() && (ended ==> entry == null && old(Ahead()) == Ahead() == {})
      ensures entry != null ==> entry in old(Ahead()) && Ahead() == old(Ahead()) - {entry}
      ensures entry != null ==> 0 <= index < ht.size && Ends(ht.chains[index], [entry] + todo)
      ensures !ended && entry == null ==>
        && Ahead() == old(Ahead())
        && (old(index) < index <= ht.size || (index == old(index) && old(entry) != null))
    {
      if entry == null {
        var ok := NextBucket();
        if !ok {
          return true;
        }
      } else {
        entry := nextEntry;
      }
      if entry != null {
        TakeFirst();
      }
      return false;
    }

    /** `dictNext`: the next entry, or null when all have been handed out. */
    method Next() returns (r: Entry?)
      requires ht.Valid() && Valid()
      modifies this
      ensures Valid() && entry == r
      ensures r == null ==> old(Ahead()) == {} && Ahead() == {}
      ensures r != null ==> r in old(Ahead()) && Ahead() == old(Ahead()) - {r}
      ensures r != null ==> 0 <= index < ht.size && Ends(ht.chains[index], [r] + todo)
    {
      ghost var ahead := Ahead();
      while true
        invariant Valid() && Ahead() == ahead
        decreases ht.size - index, if entry == null then 0 else 1
      {
        var ended := Turn();
        if ended || entry != null {
          return entry;
        }
      }
    }
  }

  /** Duplicates aside, a sequence splits around an element in one way only. */
  lemma {:induction false} SplitUnique<T>(a: seq<T>, b: seq<T>, x: T, a': seq<T>, b': seq<T>)
    requires a + [x] + b == a' + [x] + b' && NoDup(a + [x] + b)
    ensures a == a' && b == b'
  {
    var c := a + [x] + b;
    NoDupRemove(a, x, b);
    NoDupRemove(a', x, b');
    assert c[|a|] == x && c[|a'|] == x;
    assert forall i :: 0 <= i < |a| ==> c[i] == a[i] && a[i] in a + b;
    assert forall i :: 0 <= i < |a'| ==> c[i] == a'[i] && a'[i] in a' + b';
    assert |a| == |a'|;
    assert a == c[..|a|] && b == c[|a| + 1..];
  }

  lemma SortedAt(hash: bytes -> nat, n: nat, cs: seq<seq<Entry>>, es: set<Entry>, b: nat, e: Entry)
    requires Dict.Sorted(hash, n, cs, es) && b < n && e in cs[b]
    ensures NoDup(cs[b]) && e in es && Bucket(hash, e.key, n) == b
  {
  }

  /** What is on a chain is an entry of the table, in its bucket. */
  lemma OnChain(ht: Dict, b: nat, e: Entry)
    requires ht.Valid() && b < ht.size && e in ht.chains[b]
    ensures NoDup(ht.chains[b]) && e in ht.nodes && e.key in ht.M && Bucket(ht.hash, e.key, ht.size) == b
  {
    SortedAt(ht.hash, ht.size, ht.chains, ht.nodes, b, e);
    assert Dict.MapOf(ht.M, ht.nodes);
  }

  lemma EndSplit(c: seq<Entry>, e: Entry, t: seq<Entry>) returns (before: seq<Entry>)
    requires NoDup(c) && Ends(c, [e] + t)
    ensures c == before + [e] + t && NoDup(before + [e] + t) && e !in t && e in c
  {
    var k := |c| - |t| - 1;
    before := c[..k];
    assert c == before + c[k..];
    assert before + ([e] + t) == before + [e] + t;
    assert e == c[k];
    NoDupRemove(before, e, t);
  }

  /** The place of the entry that was just handed out. */
  lemma AtPlace(it: Iterator, e: Entry) returns (before: seq<Entry>)
    requires it.ht.Valid() && it.Valid() && 0 <= it.index < it.ht.size && Ends(it.ht.chains[it.index], [e] + it.todo)
    ensures it.ht.chains[it.index] == before + [e] + it.todo
    ensures NoDup(before + [e] + it.todo) && e !in it.todo
    ensures e in it.ht.nodes && e.key in it.ht.M && Bucket(it.ht.hash, e.key, it.ht.size) == it.index
  {
    var c := it.ht.chains[it.index];
    assert e == c[|c| - |it.todo| - 1] by {
      assert e == c[|c| - |it.todo| - 1..][0];
    }
    OnChain(it.ht, it.index, e);
    before := EndSplit(c, e, it.todo);
  }

  /** Delete an entry whose place on its chain is known. */
  method DeleteAt(ht: Dict, ghost h: nat, ghost before: seq<Entry>, e: Entry, ghost after: seq<Entry>)
    requires ht.Valid() && h < ht.size && ht.chains[h] == before + [e] + after
    requires NoDup(before + [e] + after) && Bucket(ht.hash, e.key, ht.size) == h
    requires e in ht.nodes && e.key in ht.M
    modifies ht, ht.table, ht.nodes`next
    ensures ht.Valid() && ht.table == old(ht.table) && ht.size == old(ht.size)
    ensures ht.chains == old(ht.chains)[h := before + after] && Ends(ht.chains[h], after)
    ensures ht.nodes == old(ht.nodes) - {e} && ht.M == old(ht.M) - {e.key}
  {
    var ok, gone, pre, post := ht.Delete(e.key);
    SplitUnique(before, after, e, pre, post);
  }

  /** Delete the entry that was just handed out. */
  method DeleteEntry(it: Iterator, e: Entry)
    requires it.ht.Valid() && it.Valid() && 0 <= it.index < it.ht.size && Ends(it.ht.chains[it.index], [e] + it.todo)
    modifies it.ht, it.ht.table, it.ht.nodes`next
    ensures it.ht.Valid() && it.ht.table == old(it.ht.table) && it.ht.size == old(it.ht.size)
    ensures Ends(it.ht.chains[it.index], it.todo)
    ensures e !in it.todo && Bucket(it.ht.hash, e.key, it.ht.size) == it.index
    ensures it.ht.M == old(it.ht.M) - {e.key} && it.ht.nodes == old(it.ht.nodes) - {e}
  {
    ghost var before := AtPlace(it, e);
    DeleteAt(it.ht, it.index, before, e, it.todo);
  }

  /** The caller deletes the entry that was just handed out; the iterator is not told. */
  method DeleteCurrent(it: Iterator, e: Entry)
    requires it.ht.Valid() && it.Valid() && 0 <= it.index < it.ht.size && Ends(it.ht.chains[it.index], [e] + it.todo)
    modifies it.ht, it.ht.table, it.ht.nodes`next
    ensures it.ht.Valid() && it.Valid() && it.ht.table == old(it.ht.table)
    ensures it.Ahead() == old(it.Ahead())
    ensures it.ht.M == old(it.ht.M) - {e.key} && it.ht.nodes == old(it.ht.nodes) - {e}
  {
    ghost var nodes := it.ht.nodes;
    DeleteEntry(it, e);
    ToComeWithout(nodes, it.ht.hash, it.ht.size, it.todo, it.index, e);
  }

  /** The keys that have been deleted on the way. */
  function Gone(visited: seq<Entry>, doomed: set<bytes>): set<bytes> {
    set e | e in visited && e.key in doomed :: e.key
  }

  lemma OneMore(visited: seq<Entry>, e: Entry, ahead: set<Entry>)
    requires NoDup(visited) && Elems(visited) !! ahead && e in ahead
    ensures var visited' := visited + [e];
      && NoDup(visited') && Elems(visited') !! ahead - {e}
      && Elems(visited') + (ahead - {e}) == Elems(visited) + ahead
  {
    assert e !in visited;
    NoDupSnoc(visited, e);
    assert Elems(visited + [e]) == Elems(visited) + {e};
  }

  /** What has been handed out and what is still ahead make up all entries, and the keys
      that are gone are the doomed ones of those handed out. */
  ghost predicate Tally(visited: seq<Entry>, ahead: set<Entry>, all: set<Entry>,
                        now: map<bytes, Callback>, m: map<bytes, Callback>, doomed: set<bytes>)
  {
    && NoDup(visited) && Elems(visited) !! ahead && Elems(visited) + ahead == all
    && now == m - Gone(visited, doomed)
  }

  /** Whether a traversal is under way in good order. */
  ghost predicate Underway(it: Iterator, all: set<Entry>, m: map<bytes, Callback>,
                           visited: seq<Entry>, doomed: set<bytes>)
    reads it, it.ht, it.ht.table, it.ht.nodes
  {
    && it.ht.Valid() && it.Valid() && it.ht.nodes <= all
    && Tally(visited, it.Ahead(), all, it.ht.M, m, doomed)
  }

  /** The next entry of a traversal that is under way. */
  method NextVisited(it: Iterator, ghost all: set<Entry>, ghost m: map<bytes, Callback>,
                     ghost visited: seq<Entry>, ghost doomed: set<bytes>) returns (next: Entry?)
    requires Underway(it, all, m, visited, doomed)
    modifies it
    ensures it.ht.Valid() && it.Valid()
    ensures next == null ==> it.Ahead() == old(it.Ahead()) == {}
    ensures next != null ==> next in old(it.Ahead()) && it.Ahead() == old(it.Ahead()) - {next}
    ensures next != null ==> 0 <= it.index < it.ht.size && Ends(it.ht.chains[it.index], [next] + it.todo)
  {
    next := it.Next();
  }

  lemma GoneStep(m: map<bytes, Callback>, visited: seq<Entry>, e: Entry, doomed: set<bytes>)
    ensures m - Gone(visited, doomed) - (if e.key in doomed then {e.key} else {})
         == m - Gone(visited + [e], doomed)
  {
    assert Gone(visited + [e], doomed) == Gone(visited, doomed) + (if e.key in doomed then {e.key} else {});
  }

  lemma TallyStep(visited: seq<Entry>, e: Entry, ahead: set<Entry>, all: set<Entry>,
                  now: map<bytes, Callback>, m: map<bytes, Callback>, doomed: set<bytes>)
    requires Tally(visited, ahead, all, now, m, doomed) && e in ahead
    ensures Tally(visited + [e], ahead - {e}, all, now - (if e.key in doomed then {e.key} else {}), m, doomed)
  {
    OneMore(visited, e, ahead);
    GoneStep(m, visited, e, doomed);
  }

  method DeleteIfDoomed(it: Iterator, e: Entry, doomed: set<bytes>)
    requires it.ht.Valid() && it.Valid() && 0 <= it.index < it.ht.size && Ends(it.ht.chains[it.index], [e] + it.todo)
    modifies it.ht, it.ht.table, it.ht.nodes`next
    ensures it.ht.Valid() && it.Valid() && it.ht.table == old(it.ht.table) && it.ht.nodes <= old(it.ht.nodes)
    ensures it.Ahead() == old(it.Ahead())
    ensures it.ht.M == old(it.ht.M) - (if e.key in doomed then {e.key} else {})
  {
    if e.key in doomed {
      DeleteCurrent(it, e);
    }
  }

  /** Write down the entry that was handed out, and delete it if it is doomed. */
  method Note(it: Iterator, e: Entry, ghost ahead: set<Entry>, ghost all: set<Entry>,
              ghost m: map<bytes, Callback>, visited: seq<Entry>, doomed: set<bytes>) returns (visited': seq<Entry>)
    requires it.ht.Valid() && it.Valid() && it.ht.nodes <= all
    requires 0 <= it.index < it.ht.size && Ends(it.ht.chains[it.index], [e] + it.todo)
    requires e in ahead && it.Ahead() == ahead - {e}
    requires Tally(visited, ahead, all, it.ht.M, m, doomed)
    modifies it.ht, it.ht.table, it.ht.nodes`next
    ensures Underway(it, all, m, visited', doomed) && it.ht.table == old(it.ht.table)
    ensures it.Ahead() == old(it.Ahead())
  {
    TallyStep(visited, e, ahead, all, it.ht.M, m, doomed);
    visited' := visited + [e];
    DeleteIfDoomed(it, e, doomed);
  }

  lemma Fewer(ahead: set<Entry>, e: Entry)
    requires e in ahead
    ensures |ahead - {e}| < |ahead|
  {
  }

  /** Visit one entry, deleting it if it is doomed. */
  method Visit(it: Iterator, ghost all: set<Entry>, ghost m: map<bytes, Callback>,
               visited: seq<Entry>, doomed: set<bytes>) returns (visited': seq<Entry>, more: bool)
    requires Underway(it, all, m, visited, doomed)
    modifies it, it.ht, it.ht.table, it.ht.nodes`next
    ensures Underway(it, all, m, visited', doomed) && it.ht.table == old(it.ht.table)
    ensures !more ==> visited' == visited && it.Ahead() == {}
    ensures more ==> |it.Ahead()| < old(|it.Ahead()|)
  {
    ghost var ahead := it.Ahead();
    var next := NextVisited(it, all, m, visited, doomed);
    if next == null {
      return visited, false;
    }
    visited' := Note(it, next, ahead, all, m, visited, doomed);
    more := true;
    Fewer(ahead, next);
  }

  lemma TallyStart(all: set<Entry>, m: map<bytes, Callback>, doomed: set<bytes>)
    ensures Tally([], all, all, m, m, doomed)
  {
    assert m - {} == m;
    assert Gone([], doomed) == {};
  }

  /** All keys of the map have been visited, so all doomed ones are gone. */
  lemma TallyEnd(visited: seq<Entry>, all: set<Entry>, now: map<bytes, Callback>,
                 m: map<bytes, Callback>, doomed: set<bytes>)
    requires Tally(visited, {}, all, now, m, doomed)
    requires forall k :: k in m ==> exists e :: e in all && e.key == k
    ensures NoDup(visited) && Elems(visited) == all && now == m - doomed
  {
    assert Elems(visited) == all;
    forall k | k in m && k in doomed
      ensures k in Gone(visited, doomed)
    {
      var e :| e in all && e.key == k;
      assert e in visited;
    }
  }

  /** A full iteration whose caller deletes every entry with a doomed key on the way. */
  method Traverse(ht: Dict, doomed: set<bytes>) returns (visited: seq<Entry>)
    requires ht.Valid()
    modifies ht, ht.table, ht.nodes`next
    ensures ht.Valid() && ht.M == old(ht.M) - doomed
    ensures NoDup(visited) && Elems(visited) == old(ht.nodes)
  {
    ghost var all, m := ht.nodes, ht.M;
    var it := new Iterator(ht);
    visited := [];
    TallyStart(all, m, doomed);
    var more := true;
    while more
      invariant Underway(it, all, m, visited, doomed) && ht.table == old(ht.table)
      invariant !more ==> it.Ahead() == {}
      decreases |it.Ahead()|, more
    {
      visited, more := Visit(it, all, m, visited, doomed);
    }
    TallyEnd(visited, all, ht.M, m, doomed);
  }
}
