/** The linked part of the hash table of `src/hashtable.c`: one circular doubly linked list of all pairs, and
  an array of buckets that point at the first and the last node of their stretch of it. */
module HashLinks {
  import opened HashSpec
  import opened Options
  import opened Sequences

  /** A `list_t`.  The one inside the table carries no pair; every other one is embedded in a pair, whose
    fields are set when it is made and never again. */
  class Link<K, V> {
    var prev: Link<K, V>
    var next: Link<K, V>
    const pair: Option<Pair<K, V>>

    /** `list_init`. */
    constructor (pair: Option<Pair<K, V>>)
      ensures next == this && prev == this && this.pair == pair
    {
      this.pair := pair;
      prev, next := this, this;
    }
  }

  datatype Bucket<K, V> = Bucket(first: Link<K, V>, last: Link<K, V>)

  /** Position `i` of the circular list; the list head stands on both sides of the nodes. */
  ghost function RingAt<K, V>(head: Link<K, V>, nodes: seq<Link<K, V>>, i: int): (l: Link<K, V>) {
    if 0 <= i < |nodes| then nodes[i] else head
  }

  ghost predicate Ring<K, V>(head: Link<K, V>, nodes: seq<Link<K, V>>)
    reads head, nodes
  {
    && NoDup(nodes) && head !in nodes
    && head.next == RingAt(head, nodes, 0) && head.prev == RingAt(head, nodes, |nodes| - 1)
    && (forall i {:trigger nodes[i].next} | 0 <= i < |nodes| :: nodes[i].next == RingAt(head, nodes, i + 1))
    && (forall i {:trigger nodes[i].prev} | 0 <= i < |nodes| :: nodes[i].prev == RingAt(head, nodes, i - 1))
  }

  ghost predicate AllPairs<K, V>(nodes: seq<Link<K, V>>) {
    forall i | 0 <= i < |nodes| :: nodes[i].pair.Some?
  }

  ghost function Entries<K, V>(nodes: seq<Link<K, V>>): (e: seq<Pair<K, V>>)
    requires AllPairs(nodes)
    ensures |e| == |nodes|
    ensures forall i {:trigger e[i]} | 0 <= i < |e| :: e[i] == nodes[i].pair.value
  {
    seq(|nodes|, i requires 0 <= i < |nodes| => nodes[i].pair.value)
  }

  /** Bucket `b` points at the first and at the last node whose hash falls in it, or at the list head. */
  ghost predicate Buckets<K, V>(head: Link<K, V>, nodes: seq<Link<K, V>>, buckets: seq<Bucket<K, V>>)
    requires AllPairs(nodes)
  {
    forall b | 0 <= b < |buckets| ::
      && buckets[b].first == RingAt(head, nodes, SlotFirst(Entries(nodes), |buckets|, b))
      && buckets[b].last == RingAt(head, nodes, SlotLast(Entries(nodes), |buckets|, b))
  }

  // ---------------------------------------------------------------- bucket positions

  lemma {:induction false} SlotFirstIs<K, V>(e: seq<Pair<K, V>>, n: nat, b: nat, r: nat)
    requires n > 0 && r <= |e| && (forall i | 0 <= i < r :: Slot(e[i], n) != b) && (r < |e| ==> Slot(e[r], n) == b)
    ensures SlotFirst(e, n, b) == r
  {
    assert SlotFirst(e, n, b) >= r;
  }

  lemma {:induction false} SlotLastIs<K, V>(e: seq<Pair<K, V>>, n: nat, b: nat, r: nat)
    requires n > 0 && r < |e| && (forall i | r < i < |e| :: Slot(e[i], n) != b) && Slot(e[r], n) == b
    ensures SlotLast(e, n, b) == r
  {
    var q := SlotLast(e, n, b);
    assert q != |e|;
  }

  lemma {:induction false} SlotLastNone<K, V>(e: seq<Pair<K, V>>, n: nat, b: nat)
    requires n > 0
    ensures SlotLast(e, n, b) == |e| <==> SlotFirst(e, n, b) == |e|
    ensures SlotFirst(e, n, b) <= SlotLast(e, n, b)
  {}

  /** Where position `i` moves when something is put in at `q`. */
  function After(i: nat, q: nat): (j: nat) { if i < q then i else i + 1 }

  /** Where position `i` moves when position `k` is taken out. */
  function Closed(i: nat, k: nat): (j: nat) { if i > k then i - 1 else i }

  lemma {:induction false} PlaceAt<K, V>(e: seq<Pair<K, V>>, n: nat, p: Pair<K, V>, i: nat)
    requires n > 0 && i <= |e|
    ensures var q, r := SlotFirst(e, n, Slot(p, n)), Place(e, n, p);
      && r[q] == p
      && (i < |e| ==> r[After(i, q)] == e[i])
      && (i < q ==> r[i] == e[i]) && (i > q ==> r[i] == e[i - 1])
  {}

  lemma {:induction false} SlotFirstAfterPlace<K, V>(e: seq<Pair<K, V>>, n: nat, p: Pair<K, V>, c: nat)
    requires n > 0
    ensures var q := SlotFirst(e, n, Slot(p, n));
      SlotFirst(Place(e, n, p), n, c) == if c == Slot(p, n) then q else After(SlotFirst(e, n, c), q)
  {
    var q, r := SlotFirst(e, n, Slot(p, n)), Place(e, n, p);
    var m := if c == Slot(p, n) then q else After(SlotFirst(e, n, c), q);
    forall i | 0 <= i < m ensures Slot(r[i], n) != c {
      PlaceAt(e, n, p, i);
    }
    PlaceAt(e, n, p, SlotFirst(e, n, c));
    SlotFirstIs(r, n, c, m);
  }

  lemma {:induction false} SlotLastAfterPlace<K, V>(e: seq<Pair<K, V>>, n: nat, p: Pair<K, V>, c: nat)
    requires n > 0
    ensures var q := SlotFirst(e, n, Slot(p, n));
      SlotLast(Place(e, n, p), n, c) == if c == Slot(p, n) && q == |e| then q else After(SlotLast(e, n, c), q)
  {
    var q, r := SlotFirst(e, n, Slot(p, n)), Place(e, n, p);
    var l := SlotLast(e, n, c);
    SlotLastNone(e, n, c);
    SlotLastNone(r, n, c);
    SlotFirstAfterPlace(e, n, p, c);
    var m := if c == Slot(p, n) && q == |e| then q else After(l, q);
    if m < |r| {
      forall i | m < i < |r| ensures Slot(r[i], n) != c {
        PlaceAt(e, n, p, i);
      }
      PlaceAt(e, n, p, l);
      SlotLastIs(r, n, c, m);
    }
  }

  lemma {:induction false} WithoutAt<E>(e: seq<E>, k: nat, i: nat)
    requires k < |e| && i < |e|
    ensures i != k ==> Without(e, k)[Closed(i, k)] == e[i]
    ensures i < |e| - 1 ==> Without(e, k)[i] == if i < k then e[i] else e[i + 1]
  {}

  /** Taking out node `k` moves the ends of its own bucket, and those of no other. */
  lemma {:induction false} SlotFirstAfterWithout<K, V>(e: seq<Pair<K, V>>, n: nat, k: nat, c: nat)
    requires n > 0 && k < |e| && Contiguous(e, n)
    ensures var b, l := SlotFirst(e, n, c), SlotLast(e, n, c);
      SlotFirst(Without(e, k), n, c)
      == if b != k then Closed(b, k) else if l == k then |e| - 1 else k
  {
    var r, b, l := Without(e, k), SlotFirst(e, n, c), SlotLast(e, n, c);
    SlotLastNone(e, n, c);
    var m := if b != k then Closed(b, k) else if l == k then |e| - 1 else k;
    if b == k && l != k {
      assert Slot(e[k + 1], n) == c;
    }
    hide Without, SlotFirst, SlotLast, Slot, Contiguous;
    forall i | 0 <= i < m ensures Slot(r[i], n) != c {
      WithoutAt(e, k, i);
    }
    if m < |r| {
      WithoutAt(e, k, m);
    }
    SlotFirstIs(r, n, c, m);
  }

  lemma {:induction false} SlotLastAfterWithout<K, V>(e: seq<Pair<K, V>>, n: nat, k: nat, c: nat)
    requires n > 0 && k < |e| && Contiguous(e, n)
    ensures var b, l := SlotFirst(e, n, c), SlotLast(e, n, c);
      SlotLast(Without(e, k), n, c)
      == if l != k then Closed(l, k) else if b == k then |e| - 1 else k - 1
  {
    var r, b, l := Without(e, k), SlotFirst(e, n, c), SlotLast(e, n, c);
    SlotLastNone(e, n, c);
    SlotLastNone(r, n, c);
    SlotFirstAfterWithout(e, n, k, c);
    var m := if l != k then Closed(l, k) else if b == k then |e| - 1 else k - 1;
    if l == k && b != k {
      assert Slot(e[k - 1], n) == c;
    }
    hide Without, SlotFirst, SlotLast, Slot, Contiguous;
    if m < |r| {
      forall i | m < i < |r| ensures Slot(r[i], n) != c {
        WithoutAt(e, k, i);
      }
      WithoutAt(e, k, m);
      SlotLastIs(r, n, c, m);
    }
  }

  // ---------------------------------------------------------------- the links

  /** The links after `node` has been put in front of position `p`. */
  ghost predicate Spliced<K, V>(head: Link<K, V>, nodes: seq<Link<K, V>>, p: nat, node: Link<K, V>)
    reads head, nodes, node
  {
    && head.next == (if p == 0 then node else RingAt(head, nodes, 0))
    && head.prev == (if p == |nodes| then node else RingAt(head, nodes, |nodes| - 1))
    && (forall i {:trigger nodes[i].next} | 0 <= i < |nodes| ::
          nodes[i].next == if i == p - 1 then node else RingAt(head, nodes, i + 1))
    && (forall i {:trigger nodes[i].prev} | 0 <= i < |nodes| ::
          nodes[i].prev == if i == p then node else RingAt(head, nodes, i - 1))
    && node.next == RingAt(head, nodes, p) && node.prev == RingAt(head, nodes, p - 1)
  }

  lemma {:induction false} SplicedRing<K, V>(head: Link<K, V>, nodes: seq<Link<K, V>>, p: nat, node: Link<K, V>)
    requires NoDup(nodes) && head !in nodes && node != head && node !in nodes && p <= |nodes|
    requires Spliced(head, nodes, p, node)
    ensures Ring(head, With(nodes, p, node))
  {
    var r := With(nodes, p, node);
    assert NoDup(r);
    forall i | 0 <= i < |r| ensures r[i].next == RingAt(head, r, i + 1) {
      assert i != p ==> r[i] == nodes[if i < p then i else i - 1];
    }
    forall i | 0 <= i < |r| ensures r[i].prev == RingAt(head, r, i - 1) {
      assert i != p ==> r[i] == nodes[if i < p then i else i - 1];
    }
  }

  /** `list_insert`: `node` goes in front of `anchor`, the node at position `p` or the list head. */
  method ListInsert<K, V>(anchor: Link<K, V>, node: Link<K, V>, ghost head: Link<K, V>, ghost nodes: seq<Link<K, V>>,
                          ghost p: nat)
    requires Ring(head, nodes) && p <= |nodes| && anchor == RingAt(head, nodes, p)
    requires node != head && node !in nodes
    modifies head, nodes, node
    ensures Ring(head, With(nodes, p, node))
  {
    node.next := anchor;
    node.prev := anchor.prev;
    anchor.prev.next := node;
    anchor.prev := node;
    SplicedRing(head, nodes, p, node);
  }

  /** The links after the neighbours of position `k` have been joined. */
  ghost predicate Bypassed<K, V>(head: Link<K, V>, nodes: seq<Link<K, V>>, k: nat)
    reads head, nodes
  {
    && head.next == RingAt(head, nodes, if k == 0 then 1 else 0)
    && head.prev == RingAt(head, nodes, if k == |nodes| - 1 then k - 1 else |nodes| - 1)
    && (forall i {:trigger nodes[i].next} | 0 <= i < |nodes| ::
          nodes[i].next == RingAt(head, nodes, if i == k - 1 then k + 1 else i + 1))
    && (forall i {:trigger nodes[i].prev} | 0 <= i < |nodes| ::
          nodes[i].prev == RingAt(head, nodes, if i == k + 1 then k - 1 else i - 1))
  }

  lemma {:induction false} WithoutNoDup<E>(s: seq<E>, k: nat)
    requires NoDup(s) && k < |s|
    ensures NoDup(Without(s, k)) && forall x | x in Without(s, k) :: x in s
  {}

  lemma {:induction false} BypassedAt<K, V>(head: Link<K, V>, nodes: seq<Link<K, V>>, k: nat, i: nat)
    requires k < |nodes| && Bypassed(head, nodes, k) && i < |nodes| - 1
    ensures var r := Without(nodes, k); r[i].next == RingAt(head, r, i + 1) && r[i].prev == RingAt(head, r, i - 1)
  {
    var j := if i < k then i else i + 1;
    assert Without(nodes, k)[i] == nodes[j];
  }

  lemma {:induction false} BypassedEnds<K, V>(head: Link<K, V>, nodes: seq<Link<K, V>>, k: nat)
    requires k < |nodes| && Bypassed(head, nodes, k)
    ensures var r := Without(nodes, k);
      head.next == RingAt(head, r, 0) && head.prev == RingAt(head, r, |r| - 1)
  {}

  lemma {:induction false} BypassedRing<K, V>(head: Link<K, V>, nodes: seq<Link<K, V>>, k: nat)
    requires NoDup(nodes) && head !in nodes && k < |nodes| && Bypassed(head, nodes, k)
    ensures Ring(head, Without(nodes, k))
  {
    hide Bypassed, NoDup, RingAt, Without;
    var r := Without(nodes, k);
    WithoutNoDup(nodes, k);
    BypassedEnds(head, nodes, k);
    forall i | 0 <= i < |r|
      ensures r[i].next == RingAt(head, r, i + 1) && r[i].prev == RingAt(head, r, i - 1) {
      BypassedAt(head, nodes, k, i);
    }
  }

  /** `list_remove`: the node at position `k` is skipped; its own links stay. */
  method ListRemove<K, V>(node: Link<K, V>, ghost head: Link<K, V>, ghost nodes: seq<Link<K, V>>, ghost k: nat)
    requires Ring(head, nodes) && k < |nodes| && node == nodes[k]
    modifies head, nodes
    ensures Ring(head, Without(nodes, k))
  {
    node.prev.next := node.next;
    node.next.prev := node.prev;
    BypassedRing(head, nodes, k);
  }

  lemma {:induction false} EntriesWith<K, V>(nodes: seq<Link<K, V>>, p: nat, node: Link<K, V>)
    requires AllPairs(nodes) && p <= |nodes| && node.pair.Some?
    ensures AllPairs(With(nodes, p, node)) && Entries(With(nodes, p, node)) == With(Entries(nodes), p, node.pair.value)
  {}

  lemma {:induction false} EntriesWithout<K, V>(nodes: seq<Link<K, V>>, k: nat)
    requires AllPairs(nodes)
    ensures AllPairs(Without(nodes, k)) && Entries(Without(nodes, k)) == Without(Entries(nodes), k)
  {}

  lemma {:induction false} RingAfterWith<K, V>(head: Link<K, V>, nodes: seq<Link<K, V>>, p: nat, node: Link<K, V>,
                                               i: nat)
    requires p <= |nodes| && i <= |nodes|
    ensures RingAt(head, With(nodes, p, node), After(i, p)) == RingAt(head, nodes, i)
    ensures RingAt(head, With(nodes, p, node), p) == node
  {}

  lemma {:induction false} RingAfterWithout<K, V>(head: Link<K, V>, nodes: seq<Link<K, V>>, k: nat, i: nat)
    requires k < |nodes| && i <= |nodes| && i != k
    ensures RingAt(head, Without(nodes, k), Closed(i, k)) == RingAt(head, nodes, i)
  {}

  /** The buckets of a table whose pairs are those of `nodes`. */
  ghost predicate Table<K, V>(head: Link<K, V>, nodes: seq<Link<K, V>>, buckets: seq<Bucket<K, V>>)
    reads head, nodes
  {
    && Ring(head, nodes) && AllPairs(nodes) && head.pair.None? && |buckets| > 0
    && Buckets(head, nodes, buckets)
  }

  lemma {:induction false} BucketsAfterInsert<K, V>(head: Link<K, V>, nodes: seq<Link<K, V>>,
                                                    buckets: seq<Bucket<K, V>>, node: Link<K, V>,
                                                    buckets': seq<Bucket<K, V>>)
    requires AllPairs(nodes) && |buckets| > 0 && Buckets(head, nodes, buckets) && node.pair.Some?
    requires var n, b := |buckets|, Slot(node.pair.value, |buckets|);
      && buckets' == buckets[b := if SlotFirst(Entries(nodes), n, b) == |nodes| then Bucket(node, node)
                                  else Bucket(node, buckets[b].last)]
    ensures var p := SlotFirst(Entries(nodes), |buckets|, Slot(node.pair.value, |buckets|));
      && AllPairs(With(nodes, p, node)) && Buckets(head, With(nodes, p, node), buckets')
  {
    var e, n, x := Entries(nodes), |buckets|, node.pair.value;
    var b := Slot(x, n);
    var p := SlotFirst(e, n, b);
    var r := With(nodes, p, node);
    EntriesWith(nodes, p, node);
    assert Entries(r) == Place(e, n, x);
    forall c | 0 <= c < n
      ensures buckets'[c].first == RingAt(head, r, SlotFirst(Entries(r), n, c))
      ensures buckets'[c].last == RingAt(head, r, SlotLast(Entries(r), n, c)) {
      SlotFirstAfterPlace(e, n, x, c);
      SlotLastAfterPlace(e, n, x, c);
      RingAfterWith(head, nodes, p, node, SlotFirst(e, n, c));
      RingAfterWith(head, nodes, p, node, SlotLast(e, n, c));
    }
  }

  /** `insert_to_bucket`. */
  method InsertToBucket<K, V>(head: Link<K, V>, buckets: array<Bucket<K, V>>, b: nat, node: Link<K, V>,
                              ghost nodes: seq<Link<K, V>>)
    requires Table(head, nodes, buckets[..]) && node != head && node !in nodes && node.pair.Some?
    requires b == Slot(node.pair.value, buckets.Length)
    modifies head, nodes, node, buckets
    ensures var p := SlotFirst(Entries(nodes), buckets.Length, b);
      Table(head, With(nodes, p, node), buckets[..])
  {
    ghost var p, was := SlotFirst(Entries(nodes), buckets.Length, b), buckets[..];
    var bucket := buckets[b];
    if bucket.first == head && bucket.first == bucket.last {
      ListInsert(head, node, head, nodes, p);
      buckets[b] := Bucket(node, node);
    } else {
      ListInsert(bucket.first, node, head, nodes, p);
      buckets[b] := bucket.(first := node);
    }
    BucketsAfterInsert(head, nodes, was, node, buckets[..]);
  }

  lemma {:induction false} BucketsAfterRemove<K, V>(head: Link<K, V>, nodes: seq<Link<K, V>>, k: nat,
                                                    buckets: seq<Bucket<K, V>>, buckets': seq<Bucket<K, V>>, b: nat)
    requires AllPairs(nodes) && |buckets| > 0 && Buckets(head, nodes, buckets) && NoDup(nodes) && head !in nodes
    requires k < |nodes| && b == Slot(nodes[k].pair.value, |buckets|) && Contiguous(Entries(nodes), |buckets|)
    requires var first, last := buckets[b].first, buckets[b].last;
      buckets' == buckets[b := if nodes[k] == first && nodes[k] == last then Bucket(head, head)
                               else if nodes[k] == first then Bucket(RingAt(head, nodes, k + 1), last)
                               else if nodes[k] == last then Bucket(first, RingAt(head, nodes, k - 1))
                               else Bucket(first, last)]
    ensures AllPairs(Without(nodes, k)) && Buckets(head, Without(nodes, k), buckets')
  {
    var e, n, r := Entries(nodes), |buckets|, Without(nodes, k);
    EntriesWithout(nodes, k);
    forall c | 0 <= c < n
      ensures buckets'[c].first == RingAt(head, r, SlotFirst(Entries(r), n, c)) {
      FirstAfterRemove(head, nodes, k, n, c);
      SlotLastNone(e, n, c);
    }
    forall c | 0 <= c < n
      ensures buckets'[c].last == RingAt(head, r, SlotLast(Entries(r), n, c)) {
      LastAfterRemove(head, nodes, k, n, c);
      SlotLastNone(e, n, c);
    }
  }

  lemma {:induction false} FirstAfterRemove<K, V>(head: Link<K, V>, nodes: seq<Link<K, V>>, k: nat, n: nat, c: nat)
    requires AllPairs(nodes) && k < |nodes| && n > 0 && Contiguous(Entries(nodes), n)
    ensures AllPairs(Without(nodes, k))
    ensures var b, l := SlotFirst(Entries(nodes), n, c), SlotLast(Entries(nodes), n, c);
      RingAt(head, Without(nodes, k), SlotFirst(Entries(Without(nodes, k)), n, c))
      == if b != k then RingAt(head, nodes, b) else if l == k then head else RingAt(head, nodes, k + 1)
  {
    var e := Entries(nodes);
    EntriesWithout(nodes, k);
    SlotFirstAfterWithout(e, n, k, c);
    SlotLastNone(e, n, c);
    if SlotFirst(e, n, c) != k {
      RingAfterWithout(head, nodes, k, SlotFirst(e, n, c));
    } else if SlotLast(e, n, c) != k {
      RingAfterWithout(head, nodes, k, k + 1);
    }
  }

  lemma {:induction false} LastAfterRemove<K, V>(head: Link<K, V>, nodes: seq<Link<K, V>>, k: nat, n: nat, c: nat)
    requires AllPairs(nodes) && k < |nodes| && n > 0 && Contiguous(Entries(nodes), n)
    ensures AllPairs(Without(nodes, k))
    ensures var b, l := SlotFirst(Entries(nodes), n, c), SlotLast(Entries(nodes), n, c);
      RingAt(head, Without(nodes, k), SlotLast(Entries(Without(nodes, k)), n, c))
      == if l != k then RingAt(head, nodes, l) else if b == k then head else RingAt(head, nodes, k - 1)
  {
    var e := Entries(nodes);
    EntriesWithout(nodes, k);
    SlotLastAfterWithout(e, n, k, c);
    SlotLastNone(e, n, c);
    if SlotLast(e, n, c) != k {
      RingAfterWithout(head, nodes, k, SlotLast(e, n, c));
    } else if SlotFirst(e, n, c) != k {
      RingAfterWithout(head, nodes, k, k - 1);
    }
  }

  /** The part of `hashtable_do_del` that takes a found pair off its bucket and off the list. */
  method RemoveFromBucket<K, V>(head: Link<K, V>, buckets: array<Bucket<K, V>>, b: nat, node: Link<K, V>,
                                ghost nodes: seq<Link<K, V>>, ghost k: nat)
    requires Table(head, nodes, buckets[..]) && k < |nodes| && node == nodes[k]
    requires b == Slot(node.pair.value, buckets.Length) && Contiguous(Entries(nodes), buckets.Length)
    modifies head, nodes, buckets
    ensures Table(head, Without(nodes, k), buckets[..])
  {
    ghost var was := buckets[..];
    var bucket := buckets[b];
    if node == bucket.first && node == bucket.last {
      buckets[b] := Bucket(head, head);
    } else if node == bucket.first {
      buckets[b] := bucket.(first := node.next);
    } else if node == bucket.last {
      buckets[b] := bucket.(last := node.prev);
    }
    BucketsAfterRemove(head, nodes, k, was, buckets[..], b);
    ListRemove(node, head, nodes, k);
  }

  lemma {:induction false} FindIs<K, V>(e: seq<Pair<K, V>>, key: K, hash: nat, f: Functions<K>, r: nat)
    requires r <= |e| && (forall j | 0 <= j < r :: !Matches(e[j], key, hash, f))
    requires r < |e| ==> Matches(e[r], key, hash, f)
    ensures HashSpec.Find(e, key, hash, f) == r
  {
    assert HashSpec.Find(e, key, hash, f) >= r;
  }

  lemma {:induction false} OutsideBucket<K, V>(e: seq<Pair<K, V>>, n: nat, key: K, hash: nat, f: Functions<K>, i: nat)
    requires n > 0 && i < |e| && !(SlotFirst(e, n, hash % n) <= i <= SlotLast(e, n, hash % n) < |e|)
    ensures !Matches(e[i], key, hash, f)
  {
    SlotLastNone(e, n, hash % n);
  }

  /** `hashtable_find_pair`: walk the bucket from its first to its last node. */
  method FindPair<K, V>(head: Link<K, V>, bucket: Bucket<K, V>, key: K, hash: nat, f: Functions<K>,
                        ghost nodes: seq<Link<K, V>>, ghost buckets: seq<Bucket<K, V>>)
    returns (found: Option<Link<K, V>>)
    requires Table(head, nodes, buckets) && bucket == buckets[hash % |buckets|]
    ensures var k := HashSpec.Find(Entries(nodes), key, hash, f);
      found == if k == |nodes| then None else Some(nodes[k])
  {
    ghost var e, n, b := Entries(nodes), |buckets|, hash % |buckets|;
    ghost var first, last := SlotFirst(e, n, b), SlotLast(e, n, b);
    SlotLastNone(e, n, b);
    forall j | 0 <= j < |e| && !(first <= j <= last < |e|) ensures !Matches(e[j], key, hash, f) {
      OutsideBucket(e, n, key, hash, f, j);
    }
    if bucket.first == head && bucket.first == bucket.last {
      FindIs(e, key, hash, f, |e|);
      return None;
    }
    var list := bucket.first;
    ghost var i := first;
    hide Buckets, SlotFirst, SlotLast, HashSpec.Find, Entries;
    while true
      invariant first <= i <= last < |nodes| && list == nodes[i]
      invariant forall j | 0 <= j < i :: !Matches(e[j], key, hash, f)
      decreases last - i
    {
      var pair := list.pair.value;
      if pair.hash == hash && f.cmpKeys(pair.key, key) {
        FindIs(e, key, hash, f, i);
        return Some(list);
      }
      if list == bucket.last {
        FindIs(e, key, hash, f, |e|);
        return None;
      }
      list := list.next;
      i := i + 1;
    }
  }
}
