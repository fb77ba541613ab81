/** The proxy's constant-size cache queue. */
module CacheQueues {
  import opened ProxyTypes

  // ---- what any number of enqueues does to a queue of fixed size ----

  /** Dequeue at the rear, then enqueue at the front. */
  function Enqueued<T>(slots: seq<T>, x: T): seq<T>
    requires slots != []
  {
    [x] + slots[..|slots| - 1]
  }

  function EnqueueAll<T>(slots: seq<T>, xs: seq<T>): (r: seq<T>)
    requires slots != []
    ensures |r| == |slots|
  {
    if xs == [] then slots else Enqueued(EnqueueAll(slots, xs[..|xs| - 1]), xs[|xs| - 1])
  }

  /** The elements that leave the queue, in the order in which they do. */
  function Evicted<T>(slots: seq<T>, xs: seq<T>): seq<T>
    requires slots != []
  {
    if xs == [] then []
    else
      var before := xs[..|xs| - 1];
      Evicted(slots, before) + [EnqueueAll(slots, before)[|slots| - 1]]
  }

  function Reverse<T>(s: seq<T>): (r: seq<T>)
    ensures |r| == |s|
  {
    if s == [] then [] else [s[|s| - 1]] + Reverse(s[..|s| - 1])
  }

  lemma {:induction false} ReverseAt<T>(s: seq<T>, i: nat)
    requires i < |s|
    ensures Reverse(s)[i] == s[|s| - 1 - i]
  {
    if i > 0 {
      ReverseAt(s[..|s| - 1], i - 1);
    }
  }

  /** After any run the queue holds the newest elements, newest first, and then what is left of the start. */
  lemma {:induction false} QueueIsNewestFirst<T>(slots: seq<T>, xs: seq<T>)
    requires slots != []
    ensures EnqueueAll(slots, xs) == (Reverse(xs) + slots)[..|slots|]
  {
    if xs == [] {
      assert Reverse(xs) + slots == slots;
    } else {
      var before, x := xs[..|xs| - 1], xs[|xs| - 1];
      QueueIsNewestFirst(slots, before);
      var q := Reverse(before) + slots;
      assert Reverse(xs) + slots == [x] + q;
      assert ([x] + q)[..|slots|] == [x] + q[..|slots|][..|slots| - 1];
    }
  }

  /** Elements leave in the order in which they came, whatever lookups happen in between: the queue is no LRU list. */
  lemma {:induction false} EvictionIsFirstInFirstOut<T>(slots: seq<T>, xs: seq<T>)
    requires slots != []
    ensures Evicted(slots, xs) == (Reverse(slots) + xs)[..|xs|]
  {
    if xs != [] {
      var before := xs[..|xs| - 1];
      EvictionIsFirstInFirstOut(slots, before);
      QueueIsNewestFirst(slots, before);
      var n, k := |slots|, |before|;
      var order := Reverse(slots) + xs;
      assert (Reverse(slots) + before)[..k] == order[..k];
      // the last slot is element k of the order
      var last := (Reverse(before) + slots)[n - 1];
      assert last == order[k] by {
        if n - 1 < k {
          ReverseAt(before, n - 1);
        } else {
          ReverseAt(slots, k);
        }
      }
      assert order[..|xs|] == order[..k] + [order[k]];
    }
  }

  /** The element enqueued at i stays for exactly the next |slots| - 1 enqueues. */
  lemma StaysUntilPushedOut<T>(slots: seq<T>, xs: seq<T>, i: nat)
    requires slots != [] && i < |xs|
    requires forall j, k | 0 <= j < k < |slots + xs| :: (slots + xs)[j] != (slots + xs)[k]
    ensures xs[i] in EnqueueAll(slots, xs) <==> |xs| - i <= |slots|
  {
    QueueIsNewestFirst(slots, xs);
    var q := Reverse(xs) + slots;
    var at := |xs| - 1 - i;
    ReverseAt(xs, at);
    assert q[at] == xs[i];
    if at < |slots| {
      assert EnqueueAll(slots, xs)[at] == xs[i];
    } else {
      forall k | 0 <= k < |slots| ensures q[k] != xs[i] {
        ReverseAt(xs, k);
        assert (slots + xs)[|slots| + |xs| - 1 - k] == xs[|xs| - 1 - k];
        assert (slots + xs)[|slots| + i] == xs[i];
      }
    }
  }

  lemma {:induction false} MembersOfRun<T>(slots: seq<T>, xs: seq<T>, x: T)
    requires slots != []
    ensures x in EnqueueAll(slots, xs) || x in Evicted(slots, xs) <==> x in slots || x in xs
  {
    if xs != [] {
      var before := xs[..|xs| - 1];
      MembersOfRun(slots, before, x);
      var q := EnqueueAll(slots, before);
      assert q == q[..|q| - 1] + [q[|q| - 1]];
      assert xs == before + [xs[|xs| - 1]];
    }
  }

  ghost function Elements<T>(s: seq<T>): set<T> {
    set x | x in s
  }

  ghost predicate Distinct<T>(s: seq<T>) {
    forall i, j | 0 <= i < j < |s| :: s[i] != s[j]
  }

  ghost predicate Mirrors<T>(r: seq<T>, s: seq<T>) {
    |r| == |s| && forall i | 0 <= i < |s| :: r[i] == s[|s| - 1 - i]
  }

  lemma ReverseMirrors<T>(s: seq<T>)
    ensures Mirrors(Reverse(s), s)
  {
    forall i | 0 <= i < |s|
      ensures Reverse(s)[i] == s[|s| - 1 - i]
    {
      ReverseAt(s, i);
    }
  }

  lemma MirrorIsDistinct<T>(slots: seq<T>, r: seq<T>, xs: seq<T>)
    requires Distinct(slots + xs) && Mirrors(r, slots)
    ensures Distinct(r + xs)
  {
    var n, order := |slots|, r + xs;
    assert forall i | 0 <= i < |order| :: order[i] == (slots + xs)[if i < n then n - 1 - i else i];
  }

  lemma MirrorOfOrder<T>(slots: seq<T>, r: seq<T>, xs: seq<T>, newest: seq<T>)
    requires Mirrors(r, slots) && Mirrors(newest, xs)
    ensures Mirrors(newest + slots, r + xs)
  {
  }

  /** With elements enqueued at most once, none leaves the queue twice and none that has left is in it. */
  lemma EvictedOnce<T>(slots: seq<T>, xs: seq<T>)
    requires slots != [] && Distinct(slots + xs)
    ensures Distinct(Evicted(slots, xs)) && Distinct(EnqueueAll(slots, xs))
    ensures forall x | x in Evicted(slots, xs) :: x !in EnqueueAll(slots, xs)
  {
    var r, newest := Reverse(slots), Reverse(xs);
    EvictionIsFirstInFirstOut(slots, xs);
    QueueIsNewestFirst(slots, xs);
    ReverseMirrors(slots);
    ReverseMirrors(xs);
    MirrorIsDistinct(slots, r, xs);
    MirrorOfOrder(slots, r, xs, newest);
    SlicesAreDistinct(r + xs, newest + slots, |xs|);
  }

  lemma SlicesAreDistinct<T>(order: seq<T>, mirror: seq<T>, k: nat)
    requires Distinct(order) && Mirrors(mirror, order) && k <= |order|
    ensures var e, q := order[..k], mirror[..|order| - k];
      Distinct(e) && Distinct(q) && forall x | x in e :: x !in q
  {
  }

  lemma NothingEnqueued<T>(slots: seq<T>)
    requires slots != []
    ensures EnqueueAll(slots, []) == slots && Evicted(slots, []) == []
  {
  }

  lemma OneMore<T>(slots: seq<T>, xs: seq<T>, x: T)
    requires slots != [] && Distinct(slots + xs) && x !in slots && x !in xs
    ensures EnqueueAll(slots, xs + [x]) == Enqueued(EnqueueAll(slots, xs), x)
    ensures Elements(Evicted(slots, xs + [x])) == Elements(Evicted(slots, xs)) + {EnqueueAll(slots, xs)[|slots| - 1]}
    ensures Distinct(slots + (xs + [x]))
  {
    assert (xs + [x])[..|xs|] == xs;
    assert slots + (xs + [x]) == slots + xs + [x];
  }

  /**
    The queue in the heap. history holds the nodes enqueued so far. A node that leaves the queue is freed,
    unless it is in use: then it is spared, and whoever uses it has to free it.
   */
  class CacheQueue {
    const maxSlot: nat
    var front: CacheNode
    var rear: CacheNode
    ghost var initial: seq<CacheNode>
    ghost var history: seq<CacheNode>
    ghost var slots: seq<CacheNode>
    ghost var freed: set<CacheNode>
    ghost var spared: set<CacheNode>

    /** slots is the next chain from front, and the prev chain from rear is its mirror. */
    ghost predicate Chain()
      reads this, slots`prev, slots`next
    {
      && |slots| >= 1 && slots[0] == front && slots[|slots| - 1] == rear
      && Distinct(slots)
      && front.prev == null && rear.next == null
      && (forall i {:trigger slots[i].next} | 0 <= i < |slots| - 1 :: slots[i].next == slots[i + 1])
      && (forall i {:trigger slots[i].prev} | 1 <= i < |slots| :: slots[i].prev == slots[i - 1])
    }

    ghost predicate Valid()
      reads this, slots`prev, slots`next
    {
      && Chain()
      && |initial| == maxSlot >= 2 && Distinct(initial + history)
      && slots == EnqueueAll(initial, history)
      && freed + spared == Elements(Evicted(initial, history))
      && freed !! spared
    }

    /** Every node that is or was in the queue. */
    ghost predicate Knows(c: CacheNode)
      reads this
    {
      c in initial || c in history
    }

    lemma SlotsAreKnown(c: CacheNode)
      requires Valid()
      ensures Knows(c) <==> c in slots || c in freed || c in spared
      ensures c in slots ==> c !in freed && c !in spared
    {
      MembersOfRun(initial, history, c);
      EvictedOnce(initial, history);
    }

    constructor (maxSlot: nat)
      requires maxSlot >= 2
      ensures Valid() && this.maxSlot == maxSlot && history == [] && freed == spared == {}
      ensures fresh(initial) && forall c | c in initial :: c.buffer == [] && !c.info.complete && c.status == Idle
    {
      var node := new CacheNode(null, null, 0);
      this.maxSlot, front, rear := maxSlot, node, node;
      history, freed, spared := [], {}, {};
      slots, initial := [node], [node];
      new;
      hide EnqueueAll, Evicted;
      var i := 0;
      while i < maxSlot - 1
        invariant 0 <= i <= maxSlot - 1 && |slots| == i + 1
        invariant fresh(slots) && Chain() && front == node && history == [] && freed == spared == {}
        invariant forall c | c in slots :: c.buffer == [] && !c.info.complete && c.status == Idle
      {
        var newNode := new CacheNode(rear, null, 0);
        newNode.prev.next := newNode;
        rear := newNode;
        slots := slots + [newNode];
        i := i + 1;
      }
      initial := slots;
      assert initial + history == initial;
      NothingEnqueued(initial);
    }

    /** Frees the node; the caller must not have done so before. */
    ghost method Free(node: CacheNode)
      requires node !in freed && node !in spared
      modifies this`freed
      ensures freed == old(freed) + {node}
    {
      freed := freed + {node};
    }

    /** Unlinks the node at the rear, and frees it if it is idle. */
    method Dequeue()
      requires Valid()
      modifies this`rear, this`slots, this`freed, this`spared, rear`prev, rear`next, rear.prev`next
      ensures Chain() && slots == old(slots[..|slots| - 1])
      ensures freed == old(freed) + if old(rear.status) == Idle then {old(rear)} else {}
      ensures spared == old(spared) + if old(rear.status) == Idle then {} else {old(rear)}
    {
      SlotsAreKnown(rear);
      var lastButOne := rear.prev;
      rear.prev := null;
      rear.next := null;
      if rear.status == Idle {
        Free(rear);
      } else {
        spared := spared + {rear};
      }
      rear := lastButOne;
      rear.next := null;
      slots := slots[..|slots| - 1];
    }

    method Enqueue(node: CacheNode)
      requires Valid() && !Knows(node)
      modifies this`front, this`rear, this`slots, this`freed, this`spared, this`history
      modifies rear`prev, rear`next, rear.prev`next, front`prev, node`prev, node`next
      ensures Valid() && history == old(history) + [node] && slots == Enqueued(old(slots), node)
      ensures initial == old(initial)
      ensures freed == old(freed) + if old(rear.status) == Idle then {old(rear)} else {}
      ensures spared == old(spared) + if old(rear.status) == Idle then {} else {old(rear)}
    {
      hide EnqueueAll, Evicted, Distinct;
      SlotsAreKnown(rear);
      SlotsAreKnown(node);
      OneMore(initial, history, node);
      assert rear in slots;
      Dequeue();
      PushFront(node);
      history := history + [node];
    }

    method PushFront(node: CacheNode)
      requires Chain() && node !in slots
      modifies this`front, this`slots, front`prev, node`prev, node`next
      ensures Chain() && slots == [node] + old(slots)
    {
      front.prev := node;
      node.next := front;
      node.prev := null;
      front := node;
      slots := [node] + slots;
    }

    ghost predicate Matches(c: CacheNode, info: HttpInfo)
      reads c`info
    {
      c.info.complete && Key(c.info) == Key(info)
    }

    /** The first complete entry for a URL, from the front; k is the number of slots in front of it. */
    method IsCacheHit(info: HttpInfo) returns (hit: CacheNode?, ghost k: nat)
      requires Valid()
      ensures hit != null ==> hit in slots && Matches(hit, info)
      ensures hit == null ==> forall c | c in slots :: !Matches(c, info)
      ensures k <= |slots| && hit == if k < |slots| then slots[k] else null
      ensures forall i | 0 <= i < k :: !Matches(slots[i], info)
      ensures k < |slots| ==> Matches(slots[k], info)
    {
      hit, k := front, 0;
      while hit != null
        invariant 0 <= k <= |slots| && hit == if k < |slots| then slots[k] else null
        invariant forall i | 0 <= i < k :: !Matches(slots[i], info)
        decreases |slots| - k
      {
        if hit.info.complete {
          if hit.info.host == info.host && hit.info.path == info.path {
            return;
          }
        }
        hit, k := hit.next, k + 1;
      }
    }
  }
}
