/** The hash table object of `src/hashtable.c`.  Its methods perform exactly the steps of `HashSpec`. */
module HashTable {
  import opened HashSpec
  import opened HashLinks
  import opened Options
  import opened Sequences
  import HashLedger
  import Sorting

  // ---------------------------------------------------------------- rehashing

  /** The old nodes from position `i` on are still chained by `next`; those before are the table `acc`. */
  ghost predicate Rehashing<K, V>(head: Link<K, V>, list: Link<K, V>, nodes: seq<Link<K, V>>, i: nat,
                                  acc: seq<Link<K, V>>, buckets: seq<Bucket<K, V>>, all: set<Link<K, V>>)
    reads head, nodes, acc
  {
    && NoDup(nodes) && head !in nodes && AllPairs(nodes) && i <= |nodes|
    && list == RingAt(head, nodes, i)
    && (forall j {:trigger nodes[j].next} | i <= j < |nodes| :: nodes[j].next == RingAt(head, nodes, j + 1))
    && Sorting.Over(nodes, all) && Sorting.Over(acc, all)
    && (forall j, m | i <= j < |nodes| && 0 <= m < |acc| :: nodes[j] != acc[m])
    && Table(head, acc, buckets)
  }

  lemma {:induction false} NotYet<K, V>(nodes: seq<Link<K, V>>, i: nat, acc: seq<Link<K, V>>, p: nat,
                                        all: set<Link<K, V>>)
    requires NoDup(nodes) && i < |nodes| && p <= |acc| && Sorting.Over(nodes, all) && Sorting.Over(acc, all)
    requires forall j, m | i <= j < |nodes| && 0 <= m < |acc| :: nodes[j] != acc[m]
    ensures Sorting.Over(With(acc, p, nodes[i]), all) && nodes[i] !in acc
    ensures forall j, m | i < j < |nodes| && 0 <= m <= |acc| :: nodes[j] != With(acc, p, nodes[i])[m]
  {}

  lemma {:induction false} ReplaceStep<K, V>(nodes: seq<Link<K, V>>, i: nat, acc: seq<Link<K, V>>, n: nat)
    requires AllPairs(nodes) && AllPairs(acc) && i < |nodes| && n > 0
    ensures var p := SlotFirst(Entries(acc), n, Slot(nodes[i].pair.value, n));
      && AllPairs(With(acc, p, nodes[i]))
      && Replace(Entries(nodes)[i..], Entries(acc), n)
         == Replace(Entries(nodes)[i + 1..], Entries(With(acc, p, nodes[i])), n)
  {
    var rest := Entries(nodes)[i..];
    assert rest[1..] == Entries(nodes)[i + 1..] && rest[0] == nodes[i].pair.value;
    EntriesWith(acc, SlotFirst(Entries(acc), n, Slot(nodes[i].pair.value, n)), nodes[i]);
  }

  /** One round of the loop: `next` is read before the node is put into its new bucket. */
  method Reinsert<K, V>(head: Link<K, V>, list: Link<K, V>, buckets: array<Bucket<K, V>>, ghost nodes: seq<Link<K, V>>,
                        ghost i: nat, ghost acc: seq<Link<K, V>>, ghost all: set<Link<K, V>>)
    returns (next: Link<K, V>, ghost acc': seq<Link<K, V>>)
    requires Rehashing(head, list, nodes, i, acc, buckets[..], all) && i < |nodes|
    modifies head, all, buckets
    ensures Rehashing(head, next, nodes, i + 1, acc', buckets[..], all)
    ensures Replace(Entries(nodes)[i + 1..], Entries(acc'), buckets.Length)
         == Replace(Entries(nodes)[i..], Entries(acc), buckets.Length)
  {
    next := list.next;
    var index := list.pair.value.hash % buckets.Length;
    ghost var p := SlotFirst(Entries(acc), buckets.Length, index);
    acc' := With(acc, p, list);
    NotYet(nodes, i, acc, p, all);
    ReplaceStep(nodes, i, acc, buckets.Length);
    InsertToBucket(head, buckets, index, list, acc);
  }

  /** The old chain has been left by the list head, which is a ring of its own now. */
  lemma {:induction false} RehashStarts<K, V>(head: Link<K, V>, list: Link<K, V>, nodes: seq<Link<K, V>>,
                                              buckets: seq<Bucket<K, V>>, all: set<Link<K, V>>)
    requires NoDup(nodes) && head !in nodes && AllPairs(nodes) && Sorting.Over(nodes, all)
    requires head.pair.None? && head.next == head && head.prev == head && list == RingAt(head, nodes, 0)
    requires forall j {:trigger nodes[j].next} | 0 <= j < |nodes| :: nodes[j].next == RingAt(head, nodes, j + 1)
    requires |buckets| > 0 && forall b | 0 <= b < |buckets| :: buckets[b] == Bucket(head, head)
    ensures Rehashing(head, list, nodes, 0, [], buckets, all)
    ensures Replace(Entries(nodes)[0..], Entries<K, V>([]), |buckets|) == Rehash(Entries(nodes), |buckets|)
  {
    assert Entries(nodes)[0..] == Entries(nodes) && Entries<K, V>([]) == [];
  }

  lemma {:induction false} RehashGoesOn<K, V>(head: Link<K, V>, list: Link<K, V>, nodes: seq<Link<K, V>>, i: nat,
                                              acc: seq<Link<K, V>>, buckets: seq<Bucket<K, V>>, all: set<Link<K, V>>)
    requires Rehashing(head, list, nodes, i, acc, buckets, all) && list != head
    ensures i < |nodes|
  {}

  lemma {:induction false} RehashEnds<K, V>(head: Link<K, V>, nodes: seq<Link<K, V>>, i: nat, acc: seq<Link<K, V>>,
                                            buckets: seq<Bucket<K, V>>, all: set<Link<K, V>>)
    requires Rehashing(head, head, nodes, i, acc, buckets, all)
    ensures Table(head, acc, buckets) && Replace(Entries(nodes)[i..], Entries(acc), |buckets|) == Entries(acc)
    ensures forall x | x in acc :: x in all
  {
    assert Entries(nodes)[i..] == [];
  }

  /** The loop of `hashtable_do_rehash`, over new buckets that all point at the list head. */
  method Relink<K, V>(head: Link<K, V>, buckets: array<Bucket<K, V>>, ghost nodes: seq<Link<K, V>>,
                      ghost was: seq<Bucket<K, V>>)
    returns (ghost acc: seq<Link<K, V>>)
    requires Table(head, nodes, was) && buckets.Length > 0
    requires forall b | 0 <= b < buckets.Length :: buckets[b] == Bucket(head, head)
    modifies head, nodes, buckets
    ensures Table(head, acc, buckets[..]) && Entries(acc) == Rehash(Entries(nodes), buckets.Length)
    ensures forall x | x in acc :: x in nodes
  {
    ghost var all, i := set x | x in nodes, 0;
    var list := head.next;
    head.next, head.prev := head, head;
    acc := [];
    RehashStarts(head, list, nodes, buckets[..], all);
    hide Table, Ring, Replace, Rehash, Rehashing, Entries, AllPairs;
    while list != head
      invariant Rehashing(head, list, nodes, i, acc, buckets[..], all)
      invariant Replace(Entries(nodes)[i..], Entries(acc), buckets.Length) == Rehash(Entries(nodes), buckets.Length)
      decreases |nodes| - i
    {
      RehashGoesOn(head, list, nodes, i, acc, buckets[..], all);
      list, acc := Reinsert(head, list, buckets, nodes, i, acc, all);
      i := i + 1;
    }
    RehashEnds(head, nodes, i, acc, buckets[..], all);
  }

  lemma {:induction false} WithMembers<E>(s: seq<E>, p: nat, x: E)
    requires p <= |s|
    ensures forall y | y in With(s, p, x) :: y == x || y in s
  {
    forall y | y in With(s, p, x) ensures y == x || y in s {
      var m :| 0 <= m < |With(s, p, x)| && With(s, p, x)[m] == y;
      assert m != p ==> y == s[if m < p then m else m - 1];
    }
  }

  lemma {:induction false} WithoutMembers<E>(s: seq<E>, k: nat)
    ensures forall x | x in Without(s, k) :: x in s
  {}

  lemma {:induction false} PutSteps<K, V>(st: State<K, V>, g: State<K, V>, key: K, value: Pointer<V>, f: Functions<K>)
    requires Room(Delete(st, key, f)) && g == Grow(Delete(st, key, f)) && g.level < |PRIMES| && PRIMES[g.level] > 0
    ensures Put(st, key, value, f) == g.(entries := Place(g.entries, PRIMES[g.level], Pair(key, value, f.hashKey(key))))
  {}

  lemma {:induction false} RunStep<K, V>(st: State<K, V>, ops: seq<Op<K, V>>, i: nat, f: Functions<K>)
    requires i < |ops| && RunRoom(st, ops[i..], f)
    ensures StepRoom(st, ops[i], f) && RunRoom(Apply(st, ops[i], f), ops[i + 1..], f)
    ensures RunTable(st, ops[i..], f).0 == RunTable(Apply(st, ops[i], f), ops[i + 1..], f).0
    ensures RunTable(st, ops[i..], f).1 == [Respond(st, ops[i], f)] + RunTable(Apply(st, ops[i], f), ops[i + 1..], f).1
  {
    assert ops[i..][1..] == ops[i + 1..];
  }

  /** After `i` operations: the replies so far and the rest of the run make up the whole run. */
  ghost predicate Underway<K, V>(st: State<K, V>, ops: seq<Op<K, V>>, i: nat, f: Functions<K>, replies: seq<Reply<V>>,
                                 whole: (State<K, V>, seq<Reply<V>>)) {
    && i <= |ops| && RunRoom(st, ops[i..], f)
    && RunTable(st, ops[i..], f).0 == whole.0 && replies + RunTable(st, ops[i..], f).1 == whole.1
  }

  lemma {:induction false} RunStarts<K, V>(st: State<K, V>, ops: seq<Op<K, V>>, f: Functions<K>)
    requires RunRoom(st, ops, f)
    ensures Underway(st, ops, 0, f, [], RunTable(st, ops, f))
  {
    assert ops[0..] == ops;
  }

  lemma {:induction false} RunGoesOn<K, V>(st: State<K, V>, ops: seq<Op<K, V>>, i: nat, f: Functions<K>,
                                           replies: seq<Reply<V>>, whole: (State<K, V>, seq<Reply<V>>))
    requires Underway(st, ops, i, f, replies, whole) && i < |ops|
    ensures StepRoom(st, ops[i], f)
    ensures Underway(Apply(st, ops[i], f), ops, i + 1, f, replies + [Respond(st, ops[i], f)], whole)
  {
    RunStep(st, ops, i, f);
    hide RunTable, RunRoom, StepRoom, Apply, Respond;
    Sorting.Assoc(replies, [Respond(st, ops[i], f)], RunTable(Apply(st, ops[i], f), ops[i + 1..], f).1);
  }

  lemma {:induction false} RunEnds<K, V>(st: State<K, V>, ops: seq<Op<K, V>>, f: Functions<K>,
                                         replies: seq<Reply<V>>, whole: (State<K, V>, seq<Reply<V>>))
    requires Underway(st, ops, |ops|, f, replies, whole)
    ensures (st, replies) == whole
  {
    assert ops[|ops|..] == [] && replies + [] == replies;
  }

  /** The arguments of one callback when the first `i` pairs have been released. */
  ghost function Freed<E, X>(called: bool, before: seq<X>, e: seq<E>, g: E -> X, i: nat): (r: seq<X>)
    requires i <= |e|
  {
    if called then before + HashLedger.Project(e, g)[..i] else before
  }

  lemma {:induction false} FreedSoFar<E, X>(called: bool, before: seq<X>, e: seq<E>, g: E -> X, i: nat)
    requires i <= |e|
    ensures i == 0 ==> Freed(called, before, e, g, i) == before
    ensures i < |e| ==> Freed(called, before, e, g, i + 1)
                        == Freed(called, before, e, g, i) + if called then [g(e[i])] else []
    ensures i == |e| ==> Freed(called, before, e, g, i) == if called then before + HashLedger.Project(e, g) else before
  {
    var r := HashLedger.Project(e, g);
    if i < |e| {
      assert r[..i + 1] == r[..i] + [r[i]];
    }
  }

  /** The loop that points every bucket at the list head. */
  method EmptyBuckets<K, V>(head: Link<K, V>, n: nat) returns (buckets: array<Bucket<K, V>>)
    ensures fresh(buckets) && buckets.Length == n
    ensures forall b | 0 <= b < n :: buckets[b] == Bucket(head, head)
  {
    buckets := new Bucket<K, V>[n](_ => Bucket(head, head));
  }

  // ---------------------------------------------------------------- the object

  class HashTable<K(!new, ==), V> {
    const list: Link<K, V>
    const f: Functions<K>
    var size: nat
    var buckets: array<Bucket<K, V>>
    var level: nat
    /** The arguments of the calls of `free_key` and `free_value`. */
    var freedKeys: seq<K>
    var freedValues: seq<Pointer<V>>

    ghost var nodes: seq<Link<K, V>>

    ghost function Repr(): (r: set<object>)
      reads this
    {
      {this, list, buckets} + set n | n in nodes
    }

    /** The linked structure is sound; what it holds satisfies the invariant of `HashSpec`. */
    ghost predicate Valid()
      reads this, list, buckets, nodes
      ensures Valid() ==> Linked() && Inv(Abs(), f) && Proper(f)
    {
      Linked() && Inv(Abs(), f) && Proper(f)
    }

    ghost predicate Linked()
      reads this, list, buckets, nodes
      ensures Linked() ==> AllPairs(nodes) && size == |nodes| && level < |PRIMES| && buckets.Length == PRIMES[level] > 0
    {
      PrimesPositive(if level < |PRIMES| then level else 0);
      && Table(list, nodes, buckets[..])
      && level < |PRIMES| && buckets.Length == PRIMES[level] && size == |nodes|
    }

    ghost function Abs(): (st: State<K, V>)
      requires AllPairs(nodes)
      reads this
      ensures st.level == level
    {
      State(Entries(nodes), level, freedKeys, freedValues)
    }

    /** `hashtable_init`. */
    constructor (f: Functions<K>)
      requires Proper(f)
      ensures Valid() && fresh(Repr()) && this.f == f && Abs() == Empty()
      ensures size == 0 && buckets.Length == 5
    {
      var head := new Link<K, V>(None);
      this.f, list := f, head;
      size, level := 0, 0;
      PrimesPositive(0);
      var all := EmptyBuckets(head, PRIMES[0]);
      buckets := all;
      freedKeys, freedValues, nodes := [], [], [];
    }

    lemma {:induction false} Revalidate()
      requires Linked() && Inv(Abs(), f) && Proper(f)
      ensures Valid()
    {}

    /** The callbacks that are not NULL are called. */
    method FreePair(p: Pair<K, V>)
      modifies this`freedKeys, this`freedValues
      ensures freedKeys == if f.freeKey then old(freedKeys) + [p.key] else old(freedKeys)
      ensures freedValues == if f.freeValue then old(freedValues) + [p.value] else old(freedValues)
    {
      if f.freeKey {
        freedKeys := freedKeys + [p.key];
      }
      if f.freeValue {
        freedValues := freedValues + [p.value];
      }
    }

    /** A found pair leaves its bucket and the list, and goes to the callbacks. */
    method Release(node: Link<K, V>, index: nat, ghost k: nat)
      requires Linked() && k < |nodes| && node == nodes[k]
      requires index == Slot(node.pair.value, buckets.Length) && Contiguous(Entries(nodes), buckets.Length)
      modifies Repr()
      ensures Linked() && Repr() <= old(Repr())
      ensures var st, p := old(Abs()), node.pair.value;
        Abs() == State(Without(st.entries, k), st.level,
                       if f.freeKey then st.freedKeys + [p.key] else st.freedKeys,
                       if f.freeValue then st.freedValues + [p.value] else st.freedValues)
    {
      EntriesWithout(nodes, k);
      WithoutMembers(nodes, k);
      var pair := node.pair.value;
      hide Table, AllPairs, Contiguous, Slot, Without, PRIMES;
      RemoveFromBucket(list, buckets, index, node, nodes, k);
      nodes := Without(nodes, k);
      FreePair(pair);
      size := size - 1;
    }

    /** `hashtable_do_del`, reporting whether the key was found. */
    method DoDel(key: K, hash: nat) returns (found: bool)
      requires Valid() && hash == f.hashKey(key)
      modifies Repr()
      ensures Valid() && Repr() <= old(Repr())
      ensures found == (HashSpec.Find(old(Abs()).entries, key, hash, f) < |old(Abs()).entries|)
      ensures Abs() == Delete(old(Abs()), key, f)
    {
      var index := hash % buckets.Length;
      ghost var k := HashSpec.Find(Entries(nodes), key, hash, f);
      DeleteIsCorrect(Abs(), key, f);
      var pair := FindPair(list, buckets[index], key, hash, f, nodes, buckets[..]);
      found := pair.Some?;
      if found {
        Release(pair.value, index, k);
      }
    }

    /** `hashtable_do_rehash`. */
    method DoRehash()
      requires Linked() && level + 1 < |PRIMES|
      modifies Repr()
      ensures Linked() && fresh(Repr() - old(Repr()))
      ensures Abs() == old(Abs()).(entries := Rehash(old(Abs()).entries, PRIMES[old(level) + 1]),
                                   level := old(level) + 1)
    {
      hide Table, AllPairs, Rehash, PRIMES;
      PrimesPositive(level + 1);
      level := level + 1;
      ghost var before, was, e := Repr(), buckets[..], Entries(nodes);
      buckets := EmptyBuckets(list, PRIMES[level]);
      nodes := Relink(list, buckets, nodes, was);
      assert Linked() && Entries(nodes) == Rehash(e, buckets.Length);
      assert Repr() <= before + {buckets};
    }

    /** The growing step of `hashtable_set`. */
    method GrowIfFull()
      requires Valid() && Room(Abs())
      modifies Repr()
      ensures Valid() && fresh(Repr() - old(Repr()))
      ensures Abs() == Grow(old(Abs()))
    {
      hide Valid, Linked, Inv, Rehash, PRIMES;
      GrowIsCorrect(Abs(), f);
      if size >= PRIMES[level] {
        DoRehash();
      }
      Revalidate();
    }

    /** The first half of `hashtable_set`: an old pair goes, and a full table grows. */
    method MakeRoom(key: K, hash: nat)
      requires Valid() && Room(Delete(Abs(), key, f)) && hash == f.hashKey(key)
      modifies Repr()
      ensures Valid() && fresh(Repr() - old(Repr()))
      ensures Abs() == Grow(Delete(old(Abs()), key, f))
    {
      hide Valid, Linked, Inv, Delete, Grow, PRIMES;
      ghost var r0 := Repr();
      var _ := DoDel(key, hash);
      ghost var r1 := Repr();
      GrowIfFull();
      assert Repr() - r0 <= (Repr() - r1) + (r1 - r0);
    }

    /** The new pair is made and put into its bucket. */
    method Add(key: K, value: Pointer<V>, hash: nat)
      requires Linked()
      modifies Repr()
      ensures Linked() && fresh(Repr() - old(Repr()))
      ensures Abs() == old(Abs()).(entries := Place(old(Abs()).entries, buckets.Length, Pair(key, value, hash)))
      ensures level == old(level)
    {
      hide Table, AllPairs, PRIMES;
      var pair := new Link(Some(Pair(key, value, hash)));
      var index := hash % buckets.Length;
      ghost var p := SlotFirst(Entries(nodes), buckets.Length, index);
      EntriesWith(nodes, p, pair);
      ghost var before := Repr();
      InsertToBucket(list, buckets, index, pair, nodes);
      nodes := With(nodes, p, pair);
      size := size + 1;
      assert Repr() <= before + {pair} by {
        WithMembers(old(nodes), p, pair);
      }
    }

    /** `hashtable_set`. */
    method Set(key: K, value: Pointer<V>)
      requires Valid() && Room(Delete(Abs(), key, f))
      modifies Repr()
      ensures Valid() && fresh(Repr() - old(Repr()))
      ensures Abs() == Put(old(Abs()), key, value, f)
      ensures level == old(level) + if |Delete(old(Abs()), key, f).entries| >= PRIMES[old(level)] then 1 else 0
    {
      hide Valid, Linked, Inv, Put, PRIMES;
      ghost var r0, st := Repr(), Abs();
      PutIsCorrect(st, key, value, f);
      var hash := f.hashKey(key);
      MakeRoom(key, hash);
      ghost var r1 := Repr();
      PutSteps(st, Abs(), key, value, f);
      GrowsIfFull(Delete(st, key, f));
      Add(key, value, hash);
      Revalidate();
      assert Repr() - r0 <= (Repr() - r1) + (r1 - r0);
    }

    /** `hashtable_get_test`. */
    method GetTest(key: K) returns (v: Option<Pointer<V>>)
      requires Valid()
      ensures v == HashSpec.GetTest(Abs(), key, f)
      ensures v == Lookup(Abs().entries, key, f)
    {
      FindIsKeyIndex(Entries(nodes), key, f);
      var hash := f.hashKey(key);
      var pair := FindPair(list, buckets[hash % buckets.Length], key, hash, f, nodes, buckets[..]);
      v := if pair.None? then None else Some(pair.value.pair.value.value);
    }

    /** `hashtable_get`: NULL also stands for a key that is not there. */
    method Get(key: K) returns (v: Pointer<V>)
      requires Valid()
      ensures v == match Lookup(Abs().entries, key, f) case None => Null case Some(value) => value
    {
      FindIsKeyIndex(Entries(nodes), key, f);
      var hash := f.hashKey(key);
      var pair := FindPair(list, buckets[hash % buckets.Length], key, hash, f, nodes, buckets[..]);
      v := if pair.None? then Null else pair.value.pair.value.value;
    }

    /** `hashtable_del`. */
    method Del(key: K) returns (found: bool)
      requires Valid()
      modifies Repr()
      ensures Valid() && fresh(Repr() - old(Repr()))
      ensures found == Lookup(old(Abs()).entries, key, f).Some?
      ensures Abs() == Delete(old(Abs()), key, f)
    {
      FindIsKeyIndex(Entries(nodes), key, f);
      found := DoDel(key, f.hashKey(key));
    }

    /** `hashtable_iter_next`, from the node at position `i` or, for `i == -1`, from the list head. */
    method IterNext(iter: Link<K, V>, ghost i: int) returns (next: Option<Link<K, V>>)
      requires Linked() && -1 <= i < |nodes| && iter == RingAt(list, nodes, i)
      ensures next == if i + 1 < |nodes| then Some(nodes[i + 1]) else None
    {
      next := if iter.next == list then None else Some(iter.next);
    }

    /** `hashtable_iter`. */
    method Iter() returns (first: Option<Link<K, V>>)
      requires Linked()
      ensures first == if nodes == [] then None else Some(nodes[0])
    {
      first := IterNext(list, -1);
    }

    /** A client's iteration: it ends after exactly `size` steps and yields the pairs in list order. */
    method Walk() returns (pairs: seq<Pair<K, V>>, steps: nat)
      requires Linked()
      ensures steps == size && pairs == Abs().entries
    {
      pairs, steps := [], 0;
      var iter := Iter();
      while iter.Some?
        invariant steps <= |nodes| && iter == if steps < |nodes| then Some(nodes[steps]) else None
        invariant pairs == Entries(nodes)[..steps]
        decreases |nodes| - steps
      {
        assert Entries(nodes)[..steps + 1] == Entries(nodes)[..steps] + [nodes[steps].pair.value];
        pairs := pairs + [iter.value.pair.value];
        iter := IterNext(iter.value, steps);
        steps := steps + 1;
      }
      assert Entries(nodes)[..|nodes|] == Entries(nodes);
    }

    /** `hashtable_close`: every pair goes to the callbacks; the table is not usable afterwards. */
    method Close()
      requires Linked()
      modifies this`freedKeys, this`freedValues
      ensures var st := HashLedger.Close(old(Abs()), f); freedKeys == st.freedKeys && freedValues == st.freedValues
    {
      ghost var ring, e, i, k0, v0 := nodes, Entries(nodes), 0, freedKeys, freedValues;
      var l := list.next;
      assert Ring(list, ring) && AllPairs(ring);
      FreedSoFar(f.freeKey, k0, e, HashLedger.KeyOf, 0);
      FreedSoFar(f.freeValue, v0, e, HashLedger.ValueOf, 0);
      hide Linked, Table, Buckets, Entries, NoDup, Freed, HashLedger.Project;
      while l != list
        invariant i <= |ring| && l == RingAt(list, ring, i) && Ring(list, ring)
        invariant freedKeys == Freed(f.freeKey, k0, e, HashLedger.KeyOf, i)
        invariant freedValues == Freed(f.freeValue, v0, e, HashLedger.ValueOf, i)
        decreases |ring| - i
      {
        var next := l.next;
        FreedSoFar(f.freeKey, k0, e, HashLedger.KeyOf, i);
        FreedSoFar(f.freeValue, v0, e, HashLedger.ValueOf, i);
        FreePair(l.pair.value);
        l := next;
        i := i + 1;
      }
      FreedSoFar(f.freeKey, k0, e, HashLedger.KeyOf, i);
      FreedSoFar(f.freeValue, v0, e, HashLedger.ValueOf, i);
    }

    /** One operation of a client. */
    method Step(op: Op<K, V>) returns (reply: Reply<V>)
      requires Valid() && StepRoom(Abs(), op, f)
      modifies Repr()
      ensures Valid() && fresh(Repr() - old(Repr()))
      ensures Abs() == Apply(old(Abs()), op, f) && reply == Respond(old(Abs()), op, f)
    {
      hide Valid, Linked, Inv, Put, Delete, PRIMES;
      match op {
        case Set(key, value) =>
          Set(key, value);
          reply := Done;
        case Del(key) =>
          var found := DoDel(key, f.hashKey(key));
          reply := Deleted(found);
        case Get(key) =>
          var v := GetTest(key);
          reply := Answer(v);
      }
    }

    /** Any run of a client's operations on the object is the run of `HashSpec`. */
    method Perform(ops: seq<Op<K, V>>) returns (replies: seq<Reply<V>>)
      requires Valid() && RunRoom(Abs(), ops, f)
      modifies Repr()
      ensures Valid() && fresh(Repr() - old(Repr()))
      ensures (Abs(), replies) == RunTable(old(Abs()), ops, f)
    {
      hide Valid, Linked, Inv, Apply, Respond, Abs, RunTable, RunRoom, StepRoom, Underway, PRIMES;
      ghost var whole := RunTable(Abs(), ops, f);
      RunStarts(Abs(), ops, f);
      replies := [];
      var i := 0;
      while i < |ops|
        invariant i <= |ops| && Valid() && fresh(Repr() - old(Repr()))
        invariant Underway(Abs(), ops, i, f, replies, whole)
      {
        RunGoesOn(Abs(), ops, i, f, replies, whole);
        var reply := Step(ops[i]);
        replies, i := replies + [reply], i + 1;
      }
      RunEnds(Abs(), ops, f, replies, whole);
    }
  }
}
