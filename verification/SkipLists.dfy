// The memtable's skip list: one writer publishing a node store by store, and readers that
// search without locks and may run between any two of its stores.

module SkipLists {
  import opened Keys

  const MAX_HEIGHT := 12

  class Node {
    const entry: Entry
    var next: seq<Node?>

    constructor (entry: Entry, height: nat)
      ensures this.entry == entry && |next| == height
      ensures forall l :: 0 <= l < height ==> next[l] == null
    {
      this.entry := entry;
      next := seq(height, _ => null);
    }
  }

  /** The nodes of a level as a chain: the head, then entries in strictly ascending key order. */
  ghost predicate Ascending(c: seq<Node>) {
    forall i, j :: 1 <= i < j < |c| ==> Less(c[i].entry.key, c[j].entry.key)
  }

  /** `idx` splits a chain into the nodes before `key` and the nodes at or after it. */
  ghost predicate SplitsAt(c: seq<Node>, key: InternalKey, idx: nat) {
    && idx < |c|
    && (forall i :: 1 <= i <= idx ==> Less(c[i].entry.key, key))
    && (forall i :: idx < i < |c| ==> !Less(c[i].entry.key, key))
  }

  /** `n` is the last node of the chain before `key`. */
  ghost predicate Precedes(c: seq<Node>, key: InternalKey, n: Node) {
    exists idx: nat :: SplitsAt(c, key, idx) && c[idx] == n
  }

  function At(c: seq<Node>, i: nat): Node?
  {
    if i < |c| then c[i] else null
  }

  /** The entries on a chain; the head carries none. */
  ghost function EntriesOn(c: seq<Node>): set<Entry> {
    set i | 1 <= i < |c| :: c[i].entry
  }

  /** Every node on `c` is still on `d`. */
  ghost predicate Grows(c: seq<Node>, d: seq<Node>) {
    forall n :: n in c ==> n in d
  }

  lemma {:induction false} SplitHere(c: seq<Node>, key: InternalKey, idx: nat)
    requires Ascending(c) && idx < |c|
    requires idx == 0 || Less(c[idx].entry.key, key)
    requires idx + 1 < |c| ==> !Less(c[idx + 1].entry.key, key)
    ensures SplitsAt(c, key, idx)
  {
    forall i | 1 <= i <= idx
      ensures Less(c[i].entry.key, key)
    {
      assert i < idx ==> Less(c[i].entry.key, c[idx].entry.key);
    }
    forall i | idx < i < |c|
      ensures !Less(c[i].entry.key, key)
    {
      assert idx + 1 < i ==> Less(c[idx + 1].entry.key, c[i].entry.key);
    }
  }

  lemma {:induction false} ChainDistinct(c: seq<Node>)
    requires Ascending(c) && |c| > 0 && c[0] !in c[1..]
    ensures forall i, j :: 0 <= i < j < |c| ==> c[i] != c[j]
  {
    forall i, j | 0 <= i < j < |c|
      ensures c[i] != c[j]
    {
      assert c[j] == c[1..][j - 1];
      if i > 0 {
        assert Less(c[i].entry.key, c[j].entry.key);
        CompareIsLess(c[i].entry.key, c[j].entry.key);
      }
    }
  }

  lemma {:induction false} InsertedAscends(c: seq<Node>, idx: nat, x: Node, d: seq<Node>)
    requires Ascending(c) && SplitsAt(c, x.entry.key, idx)
    requires idx + 1 < |c| ==> Less(x.entry.key, c[idx + 1].entry.key)
    requires d == c[..idx + 1] + [x] + c[idx + 1..]
    ensures Ascending(d)
  {
    forall i | idx < i < |c|
      ensures Less(x.entry.key, c[i].entry.key)
    {
      assert idx + 1 < i ==> Less(c[idx + 1].entry.key, c[i].entry.key);
    }
  }

  lemma {:induction false} InsertedNodes(c: seq<Node>, idx: nat, x: Node, d: seq<Node>)
    requires idx < |c| && d == c[..idx + 1] + [x] + c[idx + 1..]
    ensures Grows(c, d) && x in d
    ensures forall n :: n in d ==> n in c || n == x
    ensures EntriesOn(d) == EntriesOn(c) + {x.entry}
  {
    forall i | 0 <= i < |c|
      ensures c[i] in d && (i > 0 ==> c[i].entry in EntriesOn(d))
    {
      var j := if i <= idx then i else i + 1;
      assert d[j] == c[i];
    }
    assert d[idx + 1] == x;
    forall i | 0 <= i < |d|
      ensures d[i] in c || d[i] == x
      ensures i > 0 ==> d[i].entry in EntriesOn(c) + {x.entry}
    {
      if i <= idx {
        assert d[i] == c[i];
      } else if i > idx + 1 {
        assert d[i] == c[i - 1];
      }
    }
  }

  class SkipList {
    const head: Node
    var maxHeight: nat

    // chains[l]: the nodes reachable from the head at level l, in order, the head first.
    ghost var chains: seq<seq<Node>>
    ghost var repr: set<Node>

    // The one writer's local state: the node being inserted, its predecessors, and how many of its
    // levels are published; `prepared` says the next level's forward pointer is in place.
    var x: Node?
    var prev: seq<Node>
    var published: nat
    var prepared: bool

    ghost predicate ChainOk(l: nat)
      requires |chains| == MAX_HEIGHT && l < MAX_HEIGHT
      reads this`chains, this`repr, repr
    {
      && |chains[l]| > 0 && chains[l][0] == head && head !in chains[l][1..]
      && Ascending(chains[l])
      && (forall i :: 0 <= i < |chains[l]| ==>
            chains[l][i] in repr && l < |chains[l][i].next| && chains[l][i].next[l] == At(chains[l], i + 1))
    }

    /** What readers rely on.  It holds after every single store, and does not mention the height. */
    ghost predicate Readable()
      reads this`chains, this`repr, repr
    {
      && |chains| == MAX_HEIGHT
      && (forall l: nat :: l < MAX_HEIGHT ==> ChainOk(l))
      && (forall l :: 0 < l < MAX_HEIGHT ==> Grows(chains[l], chains[l - 1]))
    }

    /** What the writer knows of a level its node is still to be published on. */
    ghost predicate Pending(l: nat)
      requires |chains| == MAX_HEIGHT && l < MAX_HEIGHT
      reads this
    {
      x != null && x !in chains[l] && l < |prev| && Precedes(chains[l], x.entry.key, prev[l])
    }

    /** Nothing on the list, other than the node being inserted, has its key. */
    ghost predicate NewKey(key: InternalKey)
      reads this
    {
      |chains| > 0 && forall i :: 1 <= i < |chains[0]| && chains[0][i] != x ==> chains[0][i].entry.key != key
    }

    ghost predicate Writing()
      requires |chains| == MAX_HEIGHT
      reads this, repr
    {
      x != null ==>
        && x in repr && x != head && NewKey(x.entry.key)
        && published < |x.next| <= maxHeight <= MAX_HEIGHT
        && (forall l :: 0 <= l < published ==> x in chains[l])
        && (forall l: nat :: |x.next| <= l < MAX_HEIGHT ==> x !in chains[l])
        && (forall l: nat :: published <= l < |x.next| ==> Pending(l))
        && (prepared ==> published < |prev| && prev[published] in repr && published < |prev[published].next|
                         && x.next[published] == prev[published].next[published])
    }

    ghost predicate Valid()
      reads this, repr
    {
      && |chains| == MAX_HEIGHT && Readable()
      && 1 <= maxHeight <= MAX_HEIGHT
      && (forall l: nat :: maxHeight <= l < MAX_HEIGHT ==> chains[l] == [head])
      && Writing()
    }

    /** What the list contains: the entries linked at level 0. */
    ghost function Linked(): set<Entry>
      reads this`chains
    {
      if |chains| == 0 then {} else EntriesOn(chains[0])
    }

    /** `n` is an entry node of the list. */
    ghost predicate On(n: Node)
      reads this`chains
    {
      |chains| > 0 && exists i :: 1 <= i < |chains[0]| && chains[0][i] == n
    }

    constructor ()
      ensures Valid() && fresh(repr) && Linked() == {} && x == null
    {
      head := new Node(Entry(InternalKey(0.0, 0, Deletion), []), MAX_HEIGHT);
      maxHeight := 1;
      x, prev, published, prepared := null, [], 0, false;
      new;
      chains := seq(MAX_HEIGHT, _ => [head]);
      repr := {head};
    }

    /** What a search reads off a node it stands on. */
    lemma {:induction false} NodeOk(l: nat, idx: nat)
      requires Readable() && l < MAX_HEIGHT && idx < |chains[l]|
      ensures l < |chains[l][idx].next| && chains[l][idx].next[l] == At(chains[l], idx + 1)
      ensures chains[l][idx] in repr && Ascending(chains[l])
    {
      assert ChainOk(l);
    }

    lemma {:induction false} HeadOk(l: nat)
      requires Readable() && l < MAX_HEIGHT
      ensures |chains[l]| > 0 && chains[l][0] == head
    {
      assert ChainOk(l);
    }

    /** The search every operation is built on, at a height read at some point, stale or new. */
    method FindGreaterOrEqual(key: InternalKey, height: nat) returns (r: Node?, prevs: seq<Node>, ghost idx: nat)
      requires Readable() && 1 <= height <= MAX_HEIGHT
      ensures SplitsAt(chains[0], key, idx) && r == At(chains[0], idx + 1)
      ensures |prevs| == height
      ensures forall l :: 0 <= l < height ==> Precedes(chains[l], key, prevs[l])
    {
      hide ChainOk, SplitsAt, Ascending;
      var n := head;
      var level := height - 1;
      idx := 0;
      prevs := seq(height, _ => head);
      HeadOk(level);
      while true
        invariant 0 <= level < height
        invariant idx < |chains[level]| && n == chains[level][idx]
        invariant idx == 0 || Less(n.entry.key, key)
        invariant |prevs| == height
        invariant forall l :: level < l < height ==> Precedes(chains[l], key, prevs[l])
        decreases level, |chains[level]| - idx
      {
        NodeOk(level, idx);
        var next := n.next[level];
        if next != null && Less(next.entry.key, key) {
          n := next;
          idx := idx + 1;
        } else {
          SplitHere(chains[level], key, idx);
          prevs := prevs[level := n];
          assert Precedes(chains[level], key, n);
          if level == 0 {
            return next, prevs, idx;
          }
          idx := StepDown(n, level, key, idx);
          level := level - 1;
        }
      }
    }

    /** A node found on one level stands on the level below too. */
    lemma {:induction false} StepDown(n: Node, level: nat, key: InternalKey, at: nat) returns (idx: nat)
      requires Readable() && 0 < level < MAX_HEIGHT
      requires at < |chains[level]| && chains[level][at] == n
      ensures idx < |chains[level - 1]| && chains[level - 1][idx] == n
      ensures at == 0 <==> idx == 0
    {
      assert ChainOk(level) && ChainOk(level - 1);
      assert n in chains[level];
      assert Grows(chains[level], chains[level - 1]);
      idx :| 0 <= idx < |chains[level - 1]| && chains[level - 1][idx] == n;
      assert at > 0 ==> chains[level][at] == chains[level][1..][at - 1];
      assert idx > 0 ==> chains[level - 1][idx] == chains[level - 1][1..][idx - 1];
    }

    /** The last node before `key`, or the head. */
    method FindLessThan(key: InternalKey, height: nat) returns (n: Node, ghost idx: nat)
      requires Readable() && 1 <= height <= MAX_HEIGHT
      ensures SplitsAt(chains[0], key, idx) && n == chains[0][idx]
      ensures n == head || Less(n.entry.key, key)
    {
      hide ChainOk, SplitsAt, Ascending;
      n := head;
      var level := height - 1;
      idx := 0;
      HeadOk(level);
      while true
        invariant 0 <= level < height
        invariant idx < |chains[level]| && n == chains[level][idx]
        invariant n == head || Less(n.entry.key, key)
        invariant idx == 0 || Less(n.entry.key, key)
        decreases level, |chains[level]| - idx
      {
        NodeOk(level, idx);
        var next := n.next[level];
        if next == null || Compare(next.entry.key, key) >= 0 {
          if next != null { CompareIsLess(next.entry.key, key); }
          SplitHere(chains[level], key, idx);
          if level == 0 {
            return;
          }
          idx := StepDown(n, level, key, idx);
          level := level - 1;
        } else {
          CompareIsLess(next.entry.key, key);
          n := next;
          idx := idx + 1;
        }
      }
    }

    /** The last node of the list, or the head. */
    method FindLast(height: nat) returns (n: Node)
      requires Readable() && 1 <= height <= MAX_HEIGHT
      ensures |chains[0]| > 0 && n == chains[0][|chains[0]| - 1]
    {
      hide ChainOk, SplitsAt, Ascending;
      n := head;
      var level := height - 1;
      ghost var idx: nat := 0;
      HeadOk(level);
      while true
        invariant 0 <= level < height
        invariant idx < |chains[level]| && n == chains[level][idx]
        decreases level, |chains[level]| - idx
      {
        NodeOk(level, idx);
        var next := n.next[level];
        if next == null {
          if level == 0 {
            return;
          }
          idx := StepDown(n, level, n.entry.key, idx);
          level := level - 1;
        } else {
          n := next;
          idx := idx + 1;
        }
      }
    }

    /** A key is on the list exactly when the first node not before it has that key. */
    lemma {:induction false} FoundAt(key: InternalKey, idx: nat)
      requires Readable() && SplitsAt(chains[0], key, idx)
      ensures (exists y :: y in Linked() && y.key == key)
              <==> idx + 1 < |chains[0]| && chains[0][idx + 1].entry.key == key
    {
      var c := chains[0];
      assert ChainOk(0);
      if idx + 1 < |c| && c[idx + 1].entry.key == key {
        assert c[idx + 1].entry in Linked();
      }
      if y :| y in Linked() && y.key == key {
        var i :| 1 <= i < |c| && c[i].entry == y;
        assert i == idx + 1;
      }
    }

    method Contains(key: InternalKey) returns (found: bool)
      requires Valid()
      ensures found <==> exists y :: y in Linked() && y.key == key
    {
      var r, _, idx := FindGreaterOrEqual(key, maxHeight);
      FoundAt(key, idx);
      found := r != null && Compare(key, r.entry.key) == 0;
      if r != null { CompareIsLess(key, r.entry.key); }
    }

    // ----- the writer -----

    /** Every node of a level is an entry node of level 0, unless it is the head. */
    lemma {:induction false} OnLevelZero(n: Node, level: nat, at: nat) returns (idx: nat)
      requires Readable() && level < MAX_HEIGHT
      requires at < |chains[level]| && chains[level][at] == n
      ensures idx < |chains[0]| && chains[0][idx] == n && (at == 0 <==> idx == 0)
    {
      idx := at;
      if level > 0 {
        idx := StepDown(n, level, n.entry.key, at);
        idx := OnLevelZero(n, level - 1, idx);
      }
    }

    lemma {:induction false} FreshKey(key: InternalKey)
      requires Readable() && forall y :: y in Linked() ==> y.key != key
      ensures NewKey(key)
    {
      forall i | 1 <= i < |chains[0]|
        ensures chains[0][i].entry in Linked()
      {
      }
    }

    twostate lemma {:induction false} AllocateKeepsReadable()
      requires old(Readable()) && chains == old(chains) && old(repr) <= repr
      requires forall n :: n in old(repr) ==> n.next == old(n.next)
      ensures Readable()
    {
      forall l: nat | l < MAX_HEIGHT
        ensures ChainOk(l)
      {
        assert old(ChainOk(l));
      }
    }

    /** Levels not in use yet are entered at the head.  Readers may see the new height at once. */
    method RaiseHeight(key: InternalKey, height: nat, prevs: seq<Node>) returns (more: seq<Node>)
      requires Readable() && 1 <= maxHeight < height <= MAX_HEIGHT && |prevs| == maxHeight
      requires forall l: nat :: maxHeight <= l < MAX_HEIGHT ==> chains[l] == [head]
      requires forall l :: 0 <= l < maxHeight ==> Precedes(chains[l], key, prevs[l])
      modifies this`maxHeight
      ensures maxHeight == height == |more|
      ensures forall l :: 0 <= l < height ==> Precedes(chains[l], key, more[l])
    {
      more := prevs;
      for i := maxHeight to height
        invariant |more| == i
        invariant forall l :: 0 <= l < i ==> Precedes(chains[l], key, more[l])
      {
        assert SplitsAt(chains[i], key, 0);
        more := more + [head];
      }
      maxHeight := height;
    }

    /** Starts an insertion: find the predecessors, raise the height, allocate the node.
        Nothing readers can see through the chains changes. */
    method BeginInsert(entry: Entry, height: nat)
      requires Valid() && x == null
      requires 1 <= height <= MAX_HEIGHT
      requires forall y :: y in Linked() ==> y.key != entry.key
      modifies this
      ensures Valid() && fresh(repr - old(repr)) && old(repr) <= repr
      ensures chains == old(chains)
      ensures x != null && x.entry == entry && |x.next| == height && published == 0 && !prepared
    {
      hide Readable, EntriesOn, Precedes;
      var r, prevs, idx := FindGreaterOrEqual(entry.key, maxHeight);
      FreshKey(entry.key);
      if height > maxHeight {
        prevs := RaiseHeight(entry.key, height, prevs);
      }
      Allocate(entry, height, prevs);
    }

    method Allocate(entry: Entry, height: nat, prevs: seq<Node>)
      requires |chains| == MAX_HEIGHT && Readable() && 1 <= height <= maxHeight <= MAX_HEIGHT
      requires forall l: nat :: maxHeight <= l < MAX_HEIGHT ==> chains[l] == [head]
      requires |prevs| == maxHeight && NewKey(entry.key) && x == null
      requires forall l :: 0 <= l < height ==> Precedes(chains[l], entry.key, prevs[l])
      modifies this`x, this`prev, this`published, this`prepared, this`repr
      ensures Valid() && fresh(repr - old(repr)) && old(repr) <= repr
      ensures x != null && x.entry == entry && |x.next| == height && published == 0 && !prepared
    {
      hide Readable, EntriesOn, Precedes;
      InRepr();
      prev := prevs;
      x := new Node(entry, height);
      published, prepared := 0, false;
      repr := repr + {x};
      AllocateKeepsReadable();
    }

    /** Every node of every chain is one of the list's nodes. */
    lemma {:induction false} InRepr()
      requires Readable()
      ensures forall l, n :: 0 <= l < MAX_HEIGHT && n in chains[l] ==> n in repr
      ensures head in repr
    {
      forall l: nat, n | l < MAX_HEIGHT && n in chains[l]
        ensures n in repr
      {
        assert ChainOk(l);
      }
      HeadOk(0);
      NodeOk(0, 0);
    }

    /** A forward pointer of a node not yet on level `l` is invisible to readers. */
    twostate lemma {:induction false} PrepareKeepsReadable()
      requires old(Readable()) && chains == old(chains) && repr == old(repr)
      requires x != null && x == old(x) && published == old(published) < MAX_HEIGHT
      requires x in repr && x !in chains[published]
      requires forall n :: n in repr && n != old(x) ==> n.next == old(n.next)
      requires published < old(|x.next|) && |x.next| == old(|x.next|)
      requires forall m :: 0 <= m < |x.next| && m != published ==> x.next[m] == old(x.next[m])
      ensures Readable()
    {
      forall m: nat | m < MAX_HEIGHT
        ensures ChainOk(m)
      {
        assert old(ChainOk(m));
      }
    }

    /** Linking a prepared node after its predecessor inserts it in the chain of that level. */
    twostate lemma {:induction false} PublishedChainOk(idx: nat)
      requires old(Readable()) && repr == old(repr) && |chains| == MAX_HEIGHT
      requires x != null && x == old(x) && published == old(published) < MAX_HEIGHT
      requires SplitsAt(old(chains)[published], x.entry.key, idx)
      requires x in repr && x != head && x !in old(chains)[published]
      requires idx + 1 < |old(chains)[published]| ==> Less(x.entry.key, old(chains)[published][idx + 1].entry.key)
      requires chains[published] == old(chains)[published][..idx + 1] + [x] + old(chains)[published][idx + 1..]
      requires published < |x.next| && x.next[published] == At(old(chains)[published], idx + 1)
      requires old(chains)[published][idx] in repr && published < |old(chains)[published][idx].next|
      requires old(chains)[published][idx].next[published] == x
      requires forall n :: n in repr && n != old(chains)[published][idx] ==> n.next == old(n.next)
      ensures ChainOk(published)
    {
      assert old(ChainOk(published));
      var c, d := old(chains)[published], chains[published];
      InsertedAscends(c, idx, x, d);
      ChainDistinct(c);
      forall i | 0 <= i < |d|
        ensures d[i] in repr && published < |d[i].next| && d[i].next[published] == At(d, i + 1)
      {
        if i <= idx {
          assert d[i] == c[i];
          assert i < idx ==> c[i] != c[idx];
        } else if i > idx + 1 {
          assert d[i] == c[i - 1];
          assert c[i - 1] != c[idx];
        }
      }
    }

    /** Linking on one level touches no other level. */
    twostate lemma {:induction false} OtherChainOk(m: nat)
      requires old(Readable()) && repr == old(repr) && |chains| == MAX_HEIGHT
      requires published < MAX_HEIGHT && m < MAX_HEIGHT && m != published < |prev|
      requires published == old(published) && prev == old(prev)
      requires chains[m] == old(chains)[m] && prev[published] in repr
      requires forall n :: n in repr && n != prev[published] ==> n.next == old(n.next)
      requires |prev[published].next| == |old(prev[published].next)|
      requires forall k :: 0 <= k < |prev[published].next| && k != published ==>
                 prev[published].next[k] == old(prev[published].next)[k]
      ensures ChainOk(m)
    {
      assert old(ChainOk(m));
    }

    twostate lemma {:induction false} PublishKeepsReadable(idx: nat)
      requires old(Valid()) && x != null && x == old(x) && published == old(published) && prev == old(prev)
      requires repr == old(repr) && maxHeight == old(maxHeight) && old(prepared)
      requires SplitsAt(old(chains)[published], x.entry.key, idx)
      requires idx + 1 < |old(chains)[published]| ==> Less(x.entry.key, old(chains)[published][idx + 1].entry.key)
      requires published < |prev| && old(chains)[published][idx] == prev[published]
      requires prev[published] in repr && prev[published] != x && published < |old(prev[published].next)|
      requires old(prev[published].next)[published] == At(old(chains)[published], idx + 1)
      requires chains == old(chains)[published := old(chains)[published][..idx + 1] + [x] + old(chains)[published][idx + 1..]]
      requires prev[published].next == old(prev[published].next)[published := x]
      requires forall n :: n in repr && n != prev[published] ==> n.next == old(n.next)
      ensures Readable()
    {
      hide Ascending, Precedes;
      assert old(Pending(published));
      PublishedChainOk(idx);
      forall m: nat | m < MAX_HEIGHT && m != published
        ensures ChainOk(m)
      {
        OtherChainOk(m);
      }
      InsertedNodes(old(chains)[published], idx, x, chains[published]);
      forall m | 0 < m < MAX_HEIGHT
        ensures Grows(chains[m], chains[m - 1])
      {
        assert Grows(old(chains)[m], old(chains)[m - 1]);
      }
    }

    /** One store of the insertion: a forward pointer of the new node, or the pointer that
        publishes the node on its next level. */
    method Store()
      requires Valid() && x != null
      modifies this, repr
      ensures Valid() && repr == old(repr)
      ensures forall l :: 0 <= l < MAX_HEIGHT ==> Grows(old(chains[l]), chains[l])
      ensures Linked() == if old(prepared && published == 0) then old(Linked()) + {old(x.entry)} else old(Linked())
      ensures x == null <==> old(prepared && published + 1 == |x.next|)
      ensures x != null ==> x == old(x) && |x.next| == old(|x.next|) && maxHeight == old(maxHeight)
      ensures !prepared <==> old(prepared)
      ensures published == old(published) + if old(prepared) then 1 else 0
    {
      if !prepared {
        Prepare();
      } else {
        Publish();
      }
    }

    /** The predecessor noted for the next level, and its place on that level. */
    lemma {:induction false} PredecessorAt() returns (idx: nat)
      requires Valid() && x != null
      ensures published < |prev| && idx < |chains[published]| && SplitsAt(chains[published], x.entry.key, idx)
      ensures chains[published][idx] == prev[published]
      ensures idx + 1 < |chains[published]| ==> Less(x.entry.key, chains[published][idx + 1].entry.key)
      ensures prev[published] in repr && prev[published] != x
      ensures published < |prev[published].next|
      ensures prev[published].next[published] == At(chains[published], idx + 1)
    {
      var l := published;
      assert Pending(l) && ChainOk(l);
      var c := chains[l];
      idx :| SplitsAt(c, x.entry.key, idx) && c[idx] == prev[l];
      if idx + 1 < |c| {
        var at := OnLevelZero(c[idx + 1], l, idx + 1);
        CompareIsLess(x.entry.key, c[idx + 1].entry.key);
      }
    }

    method Prepare()
      requires Valid() && x != null && !prepared
      modifies this`prepared, x
      ensures Valid()
      ensures |x.next| == old(|x.next|)
      ensures prepared
    {
      hide ChainOk, SplitsAt, Ascending;
      ghost var idx := PredecessorAt();
      assert Pending(published);
      x.next := x.next[published := prev[published].next[published]];
      prepared := true;
      PrepareKeepsReadable();
      assert NewKey(x.entry.key);
      forall l: nat | published <= l < |x.next|
        ensures Pending(l)
      {
        assert old(Pending(l));
      }
    }

    method Publish()
      requires Valid() && x != null && prepared
      modifies this, prev[published]
      ensures Valid() && repr == old(repr)
      ensures forall l :: 0 <= l < MAX_HEIGHT ==> Grows(old(chains[l]), chains[l])
      ensures Linked() == if old(published) == 0 then old(Linked()) + {old(x.entry)} else old(Linked())
      ensures x == null <==> old(published + 1 == |x.next|)
      ensures x != null ==> x == old(x) && |x.next| == old(|x.next|) && maxHeight == old(maxHeight)
      ensures !prepared && published == old(published) + 1
    {
      hide Readable, SplitsAt, Ascending, EntriesOn, Precedes;
      ghost var l := published;
      ghost var idx := PredecessorAt();
      assert Pending(published);
      ghost var c := chains[l];
      ghost var d := c[..idx + 1] + [x] + c[idx + 1..];
      prev[published].next := prev[published].next[published := x];
      chains := chains[published := d];
      PublishKeepsReadable(idx);
      InsertedNodes(c, idx, x, d);
      published, prepared := published + 1, false;
      assert NewKey(x.entry.key);
      forall m: nat | published <= m < |x.next|
        ensures Pending(m)
      {
        assert old(Pending(m));
      }
      if published == |x.next| {
        x := null;
      }
    }

    /** A whole insertion, with nothing in between. */
    method Insert(entry: Entry, height: nat)
      requires Valid() && x == null
      requires 1 <= height <= MAX_HEIGHT
      requires forall y :: y in Linked() ==> y.key != entry.key
      modifies this, repr
      ensures Valid() && x == null && fresh(repr - old(repr)) && old(repr) <= repr
      ensures Linked() == old(Linked()) + {entry}
    {
      hide Readable, Writing, EntriesOn, Grows;
      BeginInsert(entry, height);
      while x != null
        invariant Valid() && fresh(repr - old(repr)) && old(repr) <= repr
        invariant x != null ==> x.entry == entry && |x.next| == height && published < height
        invariant Linked() == if x != null && published == 0 then old(Linked()) else old(Linked()) + {entry}
        decreases x != null, height - published, !prepared
      {
        Store();
      }
    }
  }

  /** A cursor over the list.  It holds on to a node, and nodes never leave the list. */
  class Iterator {
    const list: SkipList
    var node: Node?

    constructor (list: SkipList)
      ensures this.list == list && node == null
    {
      this.list := list;
      node := null;
    }

    method Next()
      requires list.Readable() && node != null && list.On(node)
      modifies this
      ensures forall i :: 1 <= i < |list.chains[0]| && list.chains[0][i] == old(node) ==>
                node == At(list.chains[0], i + 1)
    {
      assert list.ChainOk(0);
      ChainDistinct(list.chains[0]);
      node := node.next[0];
    }

    method Prev(height: nat)
      requires list.Readable() && node != null && list.On(node)
      requires 1 <= height <= MAX_HEIGHT
      modifies this
      ensures forall i :: 1 <= i < |list.chains[0]| && list.chains[0][i] == old(node) ==>
                node == if i == 1 then null else list.chains[0][i - 1]
    {
      assert list.ChainOk(0);
      ChainDistinct(list.chains[0]);
      var n, idx := list.FindLessThan(node.entry.key, height);
      forall i | 1 <= i < |list.chains[0]| && list.chains[0][i] == node
        ensures idx == i - 1
      {
        CompareIsLess(node.entry.key, node.entry.key);
        assert !(i <= idx);
        assert i == idx + 1;
      }
      node := if n == list.head then null else n;
    }

    method Seek(target: InternalKey, height: nat)
      requires list.Readable() && 1 <= height <= MAX_HEIGHT
      modifies this
      ensures exists idx: nat :: SplitsAt(list.chains[0], target, idx) && node == At(list.chains[0], idx + 1)
    {
      var r, _, idx := list.FindGreaterOrEqual(target, height);
      node := r;
    }

    method SeekToFirst()
      requires list.Readable()
      modifies this
      ensures node == At(list.chains[0], 1)
    {
      list.HeadOk(0);
      list.NodeOk(0, 0);
      node := list.head.next[0];
    }

    method SeekToLast(height: nat)
      requires list.Readable() && 1 <= height <= MAX_HEIGHT
      modifies this
      ensures |list.chains[0]| > 0
      ensures node == if |list.chains[0]| == 1 then null else list.chains[0][|list.chains[0]| - 1]
    {
      assert list.ChainOk(0);
      ChainDistinct(list.chains[0]);
      var n := list.FindLast(height);
      node := if n == list.head then null else n;
    }
  }

  // ----- a reader between any two stores of the writer -----

  datatype Search = AtOrAfter(key: InternalKey) | Before(key: InternalKey) | Last

  /** The end of the search on a chain: the node it stops at. */
  ghost predicate Found(what: Search, c: seq<Node>, idx: nat) {
    match what
    case AtOrAfter(key) => SplitsAt(c, key, idx)
    case Before(key) => SplitsAt(c, key, idx)
    case Last => idx + 1 == |c|
  }

  /** A lock-free search, one pointer load at a time. */
  class Reader {
    const list: SkipList
    const what: Search
    var node: Node
    var level: nat
    var next: Node?
    var done: bool

    // The level-0 chain as it was at the load that ended the search.
    ghost var seen: seq<Node>

    predicate Advances(next: Node?) {
      next != null && (what.Last? || Less(next.entry.key, what.key))
    }

    ghost predicate Ok()
      reads this, list, list.repr
    {
      && |list.chains| == MAX_HEIGHT
      && if done then
           && Grows(seen, list.chains[0]) && Ascending(seen)
           && exists idx: nat :: Found(what, seen, idx) && node == At(seen, idx) && next == At(seen, idx + 1)
         else
           && level < MAX_HEIGHT && node in list.chains[level]
           && (node == list.head || Advances(node))
    }

    constructor (list: SkipList, what: Search, height: nat)
      requires list.Readable() && 1 <= height <= MAX_HEIGHT
      ensures this.list == list && this.what == what && Ok() && !done
    {
      list.HeadOk(height - 1);
      this.list, this.what := list, what;
      node, level, next, done := list.head, height - 1, null, false;
    }

    method Load()
      requires list.Readable() && Ok() && !done
      modifies this
      ensures Ok()
      ensures done ==> seen == list.chains[0]
    {
      ghost var idx: nat :| idx < |list.chains[level]| && list.chains[level][idx] == node;
      list.NodeOk(level, idx);
      next := node.next[level];
      if Advances(next) {
        node := next;
      } else if level == 0 {
        done := true;
        seen := list.chains[0];
        HeadFirst(0, idx);
        if what.Last? {
          assert Found(what, seen, idx);
        } else {
          SplitHere(seen, what.key, idx);
          assert Found(what, seen, idx);
        }
      } else {
        ghost var below := list.StepDown(node, level, node.entry.key, idx);
        level := level - 1;
      }
    }

    lemma {:induction false} HeadFirst(l: nat, idx: nat)
      requires list.Readable() && l < MAX_HEIGHT
      requires idx < |list.chains[l]|
      ensures list.chains[l][idx] == list.head <==> idx == 0
    {
      assert list.ChainOk(l);
      assert idx > 0 ==> list.chains[l][idx] == list.chains[l][1..][idx - 1];
    }
  }

  datatype Action = ReaderLoads | WriterStores | InsertBegins(entry: Entry, height: nat)

  /** A search runs while the writer inserts, in any interleaving.  If the schedule lets it finish, it
      has found the right node for a set of entries between the ones linked when it started and the
      ones linked when it ended.  `late` holds every entry the writer may link meanwhile. */
  method Interleave(list: SkipList, what: Search, height: nat, schedule: seq<Action>, ghost late: set<Entry>)
    returns (reader: Reader)
    requires list.Valid() && 1 <= height <= MAX_HEIGHT
    requires list.x != null ==> list.x.entry in late
    requires forall t :: 0 <= t < |schedule| && schedule[t].InsertBegins? ==> schedule[t].entry in late
    modifies list, list.repr
    ensures list.Valid() && old(list.Linked()) <= list.Linked() <= old(list.Linked()) + late
    ensures reader.list == list && reader.what == what && fresh(reader) && reader.Ok()
    ensures reader.done ==> old(list.Linked()) <= EntriesOn(reader.seen) <= list.Linked()
  {
    hide Ascending, SplitsAt;
    reader := new Reader(list, what, height);
    for t := 0 to |schedule|
      invariant list.Valid() && fresh(reader) && fresh(list.repr - old(list.repr))
      invariant reader.list == list && reader.what == what && reader.Ok()
      invariant old(list.Linked()) <= list.Linked() <= old(list.Linked()) + late
      invariant list.x != null ==> list.x.entry in late
      invariant reader.done ==> old(list.Linked()) <= EntriesOn(reader.seen) <= list.Linked()
    {
      match schedule[t]
      case ReaderLoads =>
        if !reader.done {
          reader.Load();
        }
      case WriterStores =>
        if list.x != null {
          list.Store();
        }
      case InsertBegins(entry, h) =>
        if list.x == null && 1 <= h <= MAX_HEIGHT {
          var taken := list.Contains(entry.key);
          if !taken {
            list.BeginInsert(entry, h);
          }
        }
    }
  }
}
