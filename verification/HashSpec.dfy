/** The hash table of `src/hashtable.c` as a machine over the sequence of its pairs, in list order.

  Every pair sits on one list; a bucket is the stretch of that list whose hashes fall in it.  This module
  says what each operation does to the sequence, and proves that over every run the table answers like a
  finite map and releases what it was given.  `HashTable.dfy` proves that the linked structure performs
  exactly these steps. */
module HashSpec {
  import opened Options
  import opened Sequences

  /** The bucket counts; a table stores an index into them. */
  const PRIMES: seq<nat> := [
    5, 13, 23, 53, 97, 193, 389, 769, 1543, 3079, 6151, 12289, 24593,
    49157, 98317, 196613, 393241, 786433, 1572869, 3145739, 6291469,
    12582917, 25165843, 50331653, 100663319, 201326611, 402653189,
    805306457, 1610612741
  ]

  lemma {:induction false} PrimesIncrease(i: nat)
    requires i + 1 < |PRIMES|
    ensures PRIMES[i] < PRIMES[i + 1]
    ensures |PRIMES| == 29 && PRIMES[0] == 5 && PRIMES[28] == 1610612741
  {}

  lemma {:induction false} PrimesPositive(i: nat)
    requires i < |PRIMES|
    ensures PRIMES[i] >= 5
  {}

  datatype Pair<+K, +V> = Pair(key: K, value: Pointer<V>, hash: nat)

  /** The functions given to `hashtable_init`; `freeKey` and `freeValue` say whether the callbacks are not NULL. */
  datatype Functions<!K> = Functions(hashKey: K -> nat, cmpKeys: (K, K) -> bool, freeKey: bool, freeValue: bool)

  /** What the functions have to satisfy: `cmpKeys` is an equivalence, and equal keys hash equally. */
  ghost predicate Proper<K(!new)>(f: Functions<K>) {
    && (forall a :: f.cmpKeys(a, a))
    && (forall a, b :: f.cmpKeys(a, b) ==> f.cmpKeys(b, a) && f.hashKey(a) == f.hashKey(b))
    && (forall a, b, c :: f.cmpKeys(a, b) && f.cmpKeys(b, c) ==> f.cmpKeys(a, c))
  }

  /** The pairs in list order, the index of the bucket count, and the arguments of the callbacks so far. */
  datatype State<K, V> = State(entries: seq<Pair<K, V>>, level: nat, freedKeys: seq<K>, freedValues: seq<Pointer<V>>)

  function Slot<K, V>(p: Pair<K, V>, n: nat): (b: nat)
    requires n > 0
    ensures b < n
  {
    p.hash % n
  }

  /** The first pair of bucket `b`, or the end of the list. */
  function SlotFirst<K, V>(e: seq<Pair<K, V>>, n: nat, b: nat): (r: nat)
    requires n > 0
    ensures r <= |e|
    ensures forall i | 0 <= i < r :: Slot(e[i], n) != b
    ensures r < |e| ==> Slot(e[r], n) == b
  {
    if e == [] || Slot(e[0], n) == b then 0 else 1 + SlotFirst(e[1..], n, b)
  }

  /** The last pair of bucket `b`, or the end of the list. */
  function SlotLast<K, V>(e: seq<Pair<K, V>>, n: nat, b: nat): (r: nat)
    requires n > 0
    ensures r <= |e|
    ensures r < |e| ==> Slot(e[r], n) == b && forall i | r < i < |e| :: Slot(e[i], n) != b
    ensures r == |e| ==> forall i | 0 <= i < |e| :: Slot(e[i], n) != b
  {
    if e == [] then 0
    else if Slot(e[|e| - 1], n) == b then |e| - 1
    else
      var r := SlotLast(e[..|e| - 1], n, b);
      if r == |e| - 1 then |e| else r
  }

  /** Each bucket is one stretch of the list. */
  ghost predicate Contiguous<K, V>(e: seq<Pair<K, V>>, n: nat)
    requires n > 0
  {
    forall i, j, k | 0 <= i <= j <= k < |e| && Slot(e[i], n) == Slot(e[k], n) :: Slot(e[j], n) == Slot(e[i], n)
  }

  ghost predicate UniqueKeys<K, V>(e: seq<Pair<K, V>>, f: Functions<K>) {
    forall i, j | 0 <= i < |e| && 0 <= j < |e| && i != j :: !f.cmpKeys(e[i].key, e[j].key)
  }

  ghost predicate Hashed<K, V>(e: seq<Pair<K, V>>, f: Functions<K>) {
    forall i | 0 <= i < |e| :: e[i].hash == f.hashKey(e[i].key)
  }

  /** The invariant of the table. */
  ghost predicate Inv<K, V>(st: State<K, V>, f: Functions<K>) {
    && st.level < |PRIMES| && |st.entries| <= PRIMES[st.level]
    && Contiguous(st.entries, PRIMES[st.level])
    && UniqueKeys(st.entries, f) && Hashed(st.entries, f)
  }

  // ---------------------------------------------------------------- operations

  predicate Matches<K, V>(p: Pair<K, V>, key: K, hash: nat, f: Functions<K>) {
    p.hash == hash && f.cmpKeys(p.key, key)
  }

  /** The first pair with this hash and an equal key, or the end of the list. */
  function Find<K, V>(e: seq<Pair<K, V>>, key: K, hash: nat, f: Functions<K>): (r: nat)
    ensures r <= |e|
    ensures forall i | 0 <= i < r :: !Matches(e[i], key, hash, f)
    ensures r < |e| ==> Matches(e[r], key, hash, f)
  {
    if e == [] || Matches(e[0], key, hash, f) then 0 else 1 + Find(e[1..], key, hash, f)
  }

  /** `insert_to_bucket`: in front of its bucket, an empty bucket starts at the end of the list. */
  function Place<K, V>(e: seq<Pair<K, V>>, n: nat, p: Pair<K, V>): (r: seq<Pair<K, V>>)
    requires n > 0
    ensures |r| == |e| + 1
  {
    With(e, SlotFirst(e, n, Slot(p, n)), p)
  }

  /** `hashtable_do_rehash`: the old pairs, in order, are placed into a new table. */
  function Replace<K, V>(rest: seq<Pair<K, V>>, acc: seq<Pair<K, V>>, n: nat): (r: seq<Pair<K, V>>)
    requires n > 0
    ensures |r| == |rest| + |acc|
    decreases |rest|
  {
    if rest == [] then acc else Replace(rest[1..], Place(acc, n, rest[0]), n)
  }

  function Rehash<K, V>(e: seq<Pair<K, V>>, n: nat): (r: seq<Pair<K, V>>)
    requires n > 0
    ensures |r| == |e|
  {
    Replace(e, [], n)
  }

  function Delete<K, V>(st: State<K, V>, key: K, f: Functions<K>): (r: State<K, V>) {
    var k := Find(st.entries, key, f.hashKey(key), f);
    if k == |st.entries| then st
    else State(Without(st.entries, k), st.level,
               if f.freeKey then st.freedKeys + [st.entries[k].key] else st.freedKeys,
               if f.freeValue then st.freedValues + [st.entries[k].value] else st.freedValues)
  }

  /** There is a bucket count to grow to, should the table be full. */
  predicate Room<K, V>(st: State<K, V>) {
    st.level < |PRIMES| && (|st.entries| >= PRIMES[st.level] ==> st.level + 1 < |PRIMES|)
  }

  function Grow<K, V>(st: State<K, V>): (r: State<K, V>)
    requires Room(st)
    ensures r.level < |PRIMES|
  {
    if |st.entries| >= PRIMES[st.level] then
      PrimesPositive(st.level + 1);
      st.(entries := Rehash(st.entries, PRIMES[st.level + 1]), level := st.level + 1)
    else st
  }

  function Put<K, V>(st: State<K, V>, key: K, value: Pointer<V>, f: Functions<K>): (r: State<K, V>)
    requires Room(Delete(st, key, f))
  {
    var g := Grow(Delete(st, key, f));
    PrimesPositive(g.level);
    g.(entries := Place(g.entries, PRIMES[g.level], Pair(key, value, f.hashKey(key))))
  }

  /** The first pair with an equal key, or the end of the list. */
  function KeyIndex<K, V>(e: seq<Pair<K, V>>, key: K, f: Functions<K>): (r: nat)
    ensures r <= |e|
    ensures forall i | 0 <= i < r :: !f.cmpKeys(e[i].key, key)
    ensures r < |e| ==> f.cmpKeys(e[r].key, key)
  {
    if e == [] || f.cmpKeys(e[0].key, key) then 0 else 1 + KeyIndex(e[1..], key, f)
  }

  /** What the table means to a client: the value stored under a key, if any. */
  function Lookup<K, V>(e: seq<Pair<K, V>>, key: K, f: Functions<K>): (v: Option<Pointer<V>>) {
    var k := KeyIndex(e, key, f);
    if k < |e| then Some(e[k].value) else None
  }

  /** No pair has a key equal to `key`. */
  ghost predicate Absent<K, V>(e: seq<Pair<K, V>>, key: K, f: Functions<K>) {
    forall i {:trigger e[i]} | 0 <= i < |e| :: !f.cmpKeys(e[i].key, key)
  }

  // ---------------------------------------------------------------- lookup

  lemma {:induction false} LookupAt<K(!new), V>(e: seq<Pair<K, V>>, i: nat, key: K, f: Functions<K>)
    requires Proper(f) && UniqueKeys(e, f) && i < |e| && f.cmpKeys(e[i].key, key)
    ensures KeyIndex(e, key, f) == i
  {
    var k := KeyIndex(e, key, f);
    assert k <= i;
    assert f.cmpKeys(key, e[i].key);
    assert f.cmpKeys(e[k].key, e[i].key);
  }

  /** The hash comparison of `hashtable_find_pair` never hides a pair with an equal key. */
  lemma {:induction false} FindIsKeyIndex<K(!new), V>(e: seq<Pair<K, V>>, key: K, f: Functions<K>)
    requires Proper(f) && Hashed(e, f)
    ensures Find(e, key, f.hashKey(key), f) == KeyIndex(e, key, f)
  {
    assert forall i | 0 <= i < |e| :: Matches(e[i], key, f.hashKey(key), f) <==> f.cmpKeys(e[i].key, key);
  }

  lemma {:induction false} LookupAbsent<K, V>(e: seq<Pair<K, V>>, key: K, f: Functions<K>)
    ensures Lookup(e, key, f).None? <==> Absent(e, key, f)
  {}

  lemma {:induction false} LookupWithout<K(!new), V>(e: seq<Pair<K, V>>, k: nat, key: K, f: Functions<K>)
    requires Proper(f) && UniqueKeys(e, f) && k < |e|
    ensures UniqueKeys(Without(e, k), f) && Absent(Without(e, k), e[k].key, f)
    ensures Lookup(Without(e, k), key, f) == if f.cmpKeys(e[k].key, key) then None else Lookup(e, key, f)
  {
    var r := Without(e, k);
    assert UniqueKeys(r, f);
    forall m | 0 <= m < |e| && f.cmpKeys(e[m].key, key) ensures m == KeyIndex(e, key, f) {
      LookupAt(e, m, key, f);
    }
    var i := KeyIndex(e, key, f);
    if i < |e| && i != k {
      var j := if i < k then i else i - 1;
      assert r[j] == e[i];
      LookupAt(r, j, key, f);
    } else {
      LookupAbsent(r, key, f);
    }
  }

  lemma {:induction false} LookupWith<K(!new), V>(e: seq<Pair<K, V>>, q: nat, p: Pair<K, V>, key: K, f: Functions<K>)
    requires Proper(f) && UniqueKeys(e, f) && q <= |e| && Absent(e, p.key, f)
    ensures UniqueKeys(With(e, q, p), f)
    ensures Lookup(With(e, q, p), key, f) == if f.cmpKeys(p.key, key) then Some(p.value) else Lookup(e, key, f)
  {
    var r := With(e, q, p);
    WithUnique(e, q, p, f);
    assert r[q] == p;
    if f.cmpKeys(p.key, key) {
      LookupAt(r, q, key, f);
    } else {
      var i := KeyIndex(e, key, f);
      if i < |e| {
        var j := if i < q then i else i + 1;
        assert r[j] == e[i];
        LookupAt(r, j, key, f);
      } else {
        LookupAbsent(r, key, f);
      }
    }
  }

  lemma {:induction false} WithUnique<K(!new), V>(e: seq<Pair<K, V>>, q: nat, p: Pair<K, V>, f: Functions<K>)
    requires Proper(f) && UniqueKeys(e, f) && q <= |e| && Absent(e, p.key, f)
    ensures UniqueKeys(With(e, q, p), f)
  {
    var r := With(e, q, p);
    forall i, j | 0 <= i < |r| && 0 <= j < |r| && i != j ensures !f.cmpKeys(r[i].key, r[j].key) {
      if i == q {
        var m := if j < q then j else j - 1;
        assert r[j] == e[m];
        assert f.cmpKeys(p.key, e[m].key) <==> f.cmpKeys(e[m].key, p.key);
      }
    }
  }

  // ---------------------------------------------------------------- contiguity

  /** In front of its bucket the new pair has the slot of the pair that was there. */
  lemma {:induction false} PlacedSlot<K, V>(e: seq<Pair<K, V>>, n: nat, p: Pair<K, V>, i: nat)
    requires n > 0 && SlotFirst(e, n, Slot(p, n)) < |e| && i <= |e|
    ensures var j := if i <= SlotFirst(e, n, Slot(p, n)) then i else i - 1;
      Slot(Place(e, n, p)[i], n) == Slot(e[j], n)
  {}

  lemma {:induction false} PlaceContiguous<K, V>(e: seq<Pair<K, V>>, n: nat, p: Pair<K, V>)
    requires n > 0 && Contiguous(e, n)
    ensures Contiguous(Place(e, n, p), n)
  {
    var q, r := SlotFirst(e, n, Slot(p, n)), Place(e, n, p);
    if q < |e| {
      hide SlotFirst, Place, Slot;
      forall i, j, k | 0 <= i <= j <= k < |r| && Slot(r[i], n) == Slot(r[k], n)
        ensures Slot(r[j], n) == Slot(r[i], n) {
        PlacedSlot(e, n, p, i);
        PlacedSlot(e, n, p, j);
        PlacedSlot(e, n, p, k);
      }
    } else {
      assert forall i | 0 <= i < |e| :: r[i] == e[i] && Slot(e[i], n) != Slot(p, n);
    }
  }

  /** A new pair goes right in front of the first pair of its bucket, or to the end of the list. */
  lemma {:induction false} PlacedInFront<K, V>(e: seq<Pair<K, V>>, n: nat, p: Pair<K, V>, q: nat)
    requires n > 0 && q <= |e| && forall i | 0 <= i < q :: e[i].hash % n != p.hash % n
    requires q < |e| ==> e[q].hash % n == p.hash % n
    ensures Place(e, n, p) == e[..q] + [p] + e[q..]
  {
    assert Slot(p, n) == p.hash % n && forall i | 0 <= i < |e| :: Slot(e[i], n) == e[i].hash % n;
    assert SlotFirst(e, n, Slot(p, n)) == q;
  }

  lemma {:induction false} WithoutContiguous<K, V>(e: seq<Pair<K, V>>, n: nat, k: nat)
    requires n > 0 && Contiguous(e, n)
    ensures Contiguous(Without(e, k), n)
  {}

  // ---------------------------------------------------------------- rehashing

  /** No key of one sequence is equal to a key of the other. */
  ghost predicate Apart<K, V>(e: seq<Pair<K, V>>, g: seq<Pair<K, V>>, f: Functions<K>) {
    forall i | 0 <= i < |e| :: Absent(g, e[i].key, f)
  }

  lemma {:induction false} PlaceStep<K(!new), V>(rest: seq<Pair<K, V>>, acc: seq<Pair<K, V>>, n: nat, f: Functions<K>)
    requires n > 0 && rest != [] && Proper(f)
    requires UniqueKeys(rest, f) && UniqueKeys(acc, f) && Apart(rest, acc, f)
    requires Hashed(rest, f) && Hashed(acc, f)
    ensures UniqueKeys(rest[1..], f) && Apart(rest[1..], Place(acc, n, rest[0]), f) && Hashed(rest[1..], f)
    ensures UniqueKeys(Place(acc, n, rest[0]), f) && Hashed(Place(acc, n, rest[0]), f)
  {
    var q := SlotFirst(acc, n, Slot(rest[0], n));
    assert Absent(acc, rest[0].key, f);
    WithUnique(acc, q, rest[0], f);
    var r := Place(acc, n, rest[0]);
    forall i | 0 <= i < |rest[1..]| ensures Absent(r, rest[1..][i].key, f) {
      assert rest[1..][i] == rest[i + 1];
      assert Absent(acc, rest[i + 1].key, f);
      assert !f.cmpKeys(rest[0].key, rest[i + 1].key);
    }
  }

  lemma {:induction false} ReplaceKeeps<K(!new), V>(rest: seq<Pair<K, V>>, acc: seq<Pair<K, V>>, n: nat,
                                                    f: Functions<K>)
    requires n > 0 && Proper(f)
    requires UniqueKeys(rest, f) && UniqueKeys(acc, f) && Apart(rest, acc, f)
    requires Hashed(rest, f) && Hashed(acc, f) && Contiguous(acc, n)
    ensures UniqueKeys(Replace(rest, acc, n), f) && Hashed(Replace(rest, acc, n), f)
    ensures Contiguous(Replace(rest, acc, n), n)
    decreases |rest|
  {
    if rest != [] {
      PlaceStep(rest, acc, n, f);
      PlaceContiguous(acc, n, rest[0]);
      ReplaceKeeps(rest[1..], Place(acc, n, rest[0]), n, f);
    }
  }

  lemma {:induction false} LookupSplit<K(!new), V>(rest: seq<Pair<K, V>>, key: K, f: Functions<K>)
    requires rest != []
    ensures Lookup(rest, key, f)
            == if f.cmpKeys(rest[0].key, key) then Some(rest[0].value) else Lookup(rest[1..], key, f)
  {}

  lemma {:induction false} ReplaceLookup<K(!new), V>(rest: seq<Pair<K, V>>, acc: seq<Pair<K, V>>, n: nat, key: K,
                                                     f: Functions<K>)
    requires n > 0 && Proper(f)
    requires UniqueKeys(rest, f) && UniqueKeys(acc, f) && Apart(rest, acc, f)
    requires Hashed(rest, f) && Hashed(acc, f)
    ensures Lookup(Replace(rest, acc, n), key, f)
         == if Lookup(rest, key, f).Some? then Lookup(rest, key, f) else Lookup(acc, key, f)
    decreases |rest|
  {
    if rest != [] {
      var p, q := rest[0], SlotFirst(acc, n, Slot(rest[0], n));
      PlaceStep(rest, acc, n, f);
      ReplaceLookup(rest[1..], Place(acc, n, p), n, key, f);
      assert Absent(acc, p.key, f);
      LookupWith(acc, q, p, key, f);
      LookupSplit(rest, key, f);
      if f.cmpKeys(p.key, key) {
        LookupAt(rest, 0, key, f);
        forall i | 0 <= i < |rest[1..]| ensures !f.cmpKeys(rest[1..][i].key, key) {
          assert rest[1..][i] == rest[i + 1];
          SameClass(rest[0].key, key, rest[i + 1].key, f);
        }
        LookupAbsent(rest[1..], key, f);
      }
    }
  }

  lemma {:induction false} ReplacePermutes<K, V>(rest: seq<Pair<K, V>>, acc: seq<Pair<K, V>>, n: nat)
    requires n > 0
    ensures multiset(Replace(rest, acc, n)) == multiset(rest) + multiset(acc)
    decreases |rest|
  {
    if rest != [] {
      ReplacePermutes(rest[1..], Place(acc, n, rest[0]), n);
      WithMultiset(acc, SlotFirst(acc, n, Slot(rest[0], n)), rest[0]);
      assert rest == [rest[0]] + rest[1..];
    }
  }

  lemma {:induction false} WithMultiset<E>(s: seq<E>, k: nat, x: E)
    requires k <= |s|
    ensures multiset(With(s, k, x)) == multiset(s) + multiset{x}
  {
    assert s == s[..k] + s[k..];
  }

  lemma {:induction false} ReplaceLast<K, V>(rest: seq<Pair<K, V>>, acc: seq<Pair<K, V>>, n: nat, p: Pair<K, V>)
    requires n > 0
    ensures Replace(rest + [p], acc, n) == Place(Replace(rest, acc, n), n, p)
    decreases |rest|
  {
    var s := rest + [p];
    if rest == [] {
      assert s[0] == p && s[1..] == [];
    } else {
      assert s[0] == rest[0] && s[1..] == rest[1..] + [p];
      ReplaceLast(rest[1..], Place(acc, n, rest[0]), n, p);
    }
  }

  /** Rehashing puts the pairs into the empty table one after the other, in list order. */
  lemma {:induction false} RehashInOrder<K, V>(e: seq<Pair<K, V>>, n: nat, p: Pair<K, V>)
    requires n > 0
    ensures |Rehash(e[..0], n)| == 0
    ensures Rehash(e + [p], n) == Place(Rehash(e, n), n, p)
  {
    ReplaceLast(e, [], n, p);
  }

  /** Rehashing keeps the pairs, answers every lookup as before, and restores the bucket segments. */
  lemma {:induction false} RehashIsCorrect<K(!new), V>(e: seq<Pair<K, V>>, n: nat, f: Functions<K>)
    requires n > 0 && Proper(f) && UniqueKeys(e, f) && Hashed(e, f)
    ensures multiset(Rehash(e, n)) == multiset(e)
    ensures Contiguous(Rehash(e, n), n) && UniqueKeys(Rehash(e, n), f) && Hashed(Rehash(e, n), f)
    ensures forall key :: Lookup(Rehash(e, n), key, f) == Lookup(e, key, f)
  {
    ReplacePermutes(e, [], n);
    ReplaceKeeps(e, [], n, f);
    forall key ensures Lookup(Rehash(e, n), key, f) == Lookup(e, key, f) {
      ReplaceLookup(e, [], n, key, f);
    }
  }

  // ---------------------------------------------------------------- one operation

  lemma {:induction false} DeleteIsCorrect<K(!new), V>(st: State<K, V>, key: K, f: Functions<K>)
    requires Proper(f) && Inv(st, f)
    ensures Inv(Delete(st, key, f), f)
    ensures Absent(Delete(st, key, f).entries, key, f)
    ensures forall k :: Lookup(Delete(st, key, f).entries, k, f)
                        == if f.cmpKeys(key, k) then None else Lookup(st.entries, k, f)
  {
    var e := st.entries;
    var i := KeyIndex(e, key, f);
    FindIsKeyIndex(e, key, f);
    if i < |e| {
      WithoutContiguous(e, PRIMES[st.level], i);
      forall k ensures Lookup(Without(e, i), k, f) == if f.cmpKeys(key, k) then None else Lookup(e, k, f) {
        LookupWithout(e, i, k, f);
        SameClass(e[i].key, key, k, f);
      }
      LookupWithout(e, i, key, f);
      LookupAbsent(Without(e, i), key, f);
    } else {
      forall k | f.cmpKeys(key, k) ensures Lookup(e, k, f).None? {
        var m := KeyIndex(e, k, f);
        if m < |e| { SameClass(k, key, e[m].key, f); }
      }
    }
  }

  lemma {:induction false} SameClass<K(!new)>(a: K, b: K, c: K, f: Functions<K>)
    requires Proper(f) && f.cmpKeys(a, b)
    ensures f.cmpKeys(a, c) <==> f.cmpKeys(b, c)
    ensures f.cmpKeys(c, a) <==> f.cmpKeys(c, b)
  {}

  lemma {:induction false} GrowIsCorrect<K(!new), V>(st: State<K, V>, f: Functions<K>)
    requires Proper(f) && Inv(st, f) && Room(st)
    ensures Inv(Grow(st), f) && |Grow(st).entries| < PRIMES[Grow(st).level]
    ensures multiset(Grow(st).entries) == multiset(st.entries)
    ensures forall k :: Lookup(Grow(st).entries, k, f) == Lookup(st.entries, k, f)
  {
    if |st.entries| >= PRIMES[st.level] {
      PrimesIncrease(st.level);
      RehashIsCorrect(st.entries, PRIMES[st.level + 1], f);
    }
  }

  /** The table grows, by one bucket count, exactly if it is full. */
  lemma {:induction false} GrowsIfFull<K, V>(st: State<K, V>)
    requires Room(st)
    ensures Grow(st).level == st.level + if |st.entries| >= PRIMES[st.level] then 1 else 0
    ensures |st.entries| < PRIMES[st.level] ==> Grow(st) == st
  {}

  lemma {:induction false} PlaceIsCorrect<K(!new), V>(g: State<K, V>, p: Pair<K, V>, f: Functions<K>)
    requires Proper(f) && Inv(g, f) && |g.entries| < PRIMES[g.level]
    requires Absent(g.entries, p.key, f) && p.hash == f.hashKey(p.key)
    ensures Inv(g.(entries := Place(g.entries, PRIMES[g.level], p)), f)
    ensures forall k :: Lookup(Place(g.entries, PRIMES[g.level], p), k, f)
                        == if f.cmpKeys(p.key, k) then Some(p.value) else Lookup(g.entries, k, f)
  {
    var n := PRIMES[g.level];
    var q := SlotFirst(g.entries, n, Slot(p, n));
    PlaceContiguous(g.entries, n, p);
    WithUnique(g.entries, q, p, f);
    forall k ensures Lookup(Place(g.entries, n, p), k, f)
                     == if f.cmpKeys(p.key, k) then Some(p.value) else Lookup(g.entries, k, f) {
      LookupWith(g.entries, q, p, k, f);
    }
  }

  /** `hashtable_set` keeps the invariant - in particular one rehash always makes enough room - and maps the key. */
  lemma {:induction false} PutIsCorrect<K(!new), V>(st: State<K, V>, key: K, value: Pointer<V>, f: Functions<K>)
    requires Proper(f) && Inv(st, f) && Room(Delete(st, key, f))
    ensures Inv(Put(st, key, value, f), f)
    ensures forall k :: Lookup(Put(st, key, value, f).entries, k, f)
                        == if f.cmpKeys(key, k) then Some(value) else Lookup(st.entries, k, f)
  {
    var d := Delete(st, key, f);
    DeleteIsCorrect(st, key, f);
    GrowIsCorrect(d, f);
    var g := Grow(d);
    LookupAbsent(d.entries, key, f);
    LookupAbsent(g.entries, key, f);
    PlaceIsCorrect(g, Pair(key, value, f.hashKey(key)), f);
  }

  // ---------------------------------------------------------------- runs

  datatype Op<K, V> = Set(key: K, value: Pointer<V>) | Del(key: K) | Get(key: K)

  datatype Reply<V> = Done | Deleted(found: bool) | Answer(value: Option<Pointer<V>>)

  /** What `hashtable_get_test` finds: the pair is looked for by hash and key. */
  function GetTest<K, V>(st: State<K, V>, key: K, f: Functions<K>): (v: Option<Pointer<V>>) {
    var k := Find(st.entries, key, f.hashKey(key), f);
    if k < |st.entries| then Some(st.entries[k].value) else None
  }

  /** A set may need a bucket count to grow to; the other operations need nothing. */
  predicate StepRoom<K, V>(st: State<K, V>, op: Op<K, V>, f: Functions<K>) {
    op.Set? ==> Room(Delete(st, op.key, f))
  }

  function Apply<K, V>(st: State<K, V>, op: Op<K, V>, f: Functions<K>): (r: State<K, V>)
    requires StepRoom(st, op, f)
  {
    match op
    case Set(key, value) => Put(st, key, value, f)
    case Del(key) => Delete(st, key, f)
    case Get(key) => st
  }

  /** There is room at every step of a run. */
  predicate RunRoom<K, V>(st: State<K, V>, ops: seq<Op<K, V>>, f: Functions<K>)
    decreases |ops|
  {
    ops == [] || (StepRoom(st, ops[0], f) && RunRoom(Apply(st, ops[0], f), ops[1..], f))
  }

  function Respond<K, V>(st: State<K, V>, op: Op<K, V>, f: Functions<K>): (r: Reply<V>) {
    match op
    case Set(key, value) => Done
    case Del(key) => Deleted(Find(st.entries, key, f.hashKey(key), f) < |st.entries|)
    case Get(key) => Answer(GetTest(st, key, f))
  }

  function RunTable<K, V>(st: State<K, V>, ops: seq<Op<K, V>>, f: Functions<K>): (r: (State<K, V>, seq<Reply<V>>))
    requires RunRoom(st, ops, f)
    decreases |ops|
  {
    if ops == [] then (st, [])
    else
      var (final, replies) := RunTable(Apply(st, ops[0], f), ops[1..], f);
      (final, [Respond(st, ops[0], f)] + replies)
  }

  /** The reference: a map from keys to values, up to equality of keys. */
  type Map<!K, V> = K -> Option<Pointer<V>>

  function ApplyMap<K, V>(m: Map<K, V>, op: Op<K, V>, f: Functions<K>): (r: Map<K, V>) {
    match op
    case Set(key, value) => (k: K) => if f.cmpKeys(key, k) then Some(value) else m(k)
    case Del(key) => (k: K) => if f.cmpKeys(key, k) then None else m(k)
    case Get(key) => m
  }

  function RespondMap<K, V>(m: Map<K, V>, op: Op<K, V>): (r: Reply<V>) {
    match op
    case Set(key, value) => Done
    case Del(key) => Deleted(m(key).Some?)
    case Get(key) => Answer(m(key))
  }

  function RunMap<K, V>(m: Map<K, V>, ops: seq<Op<K, V>>, f: Functions<K>): (r: (Map<K, V>, seq<Reply<V>>))
    decreases |ops|
  {
    if ops == [] then (m, [])
    else
      var (final, replies) := RunMap(ApplyMap(m, ops[0], f), ops[1..], f);
      (final, [RespondMap(m, ops[0])] + replies)
  }

  ghost predicate Represents<K(!new), V>(st: State<K, V>, m: Map<K, V>, f: Functions<K>) {
    forall k :: Lookup(st.entries, k, f) == m(k)
  }

  lemma {:induction false} StepRefines<K(!new), V>(st: State<K, V>, m: Map<K, V>, op: Op<K, V>, f: Functions<K>)
    requires Proper(f) && Inv(st, f) && Represents(st, m, f) && StepRoom(st, op, f)
    ensures Inv(Apply(st, op, f), f) && Represents(Apply(st, op, f), ApplyMap(m, op, f), f)
    ensures Respond(st, op, f) == RespondMap(m, op)
  {
    FindIsKeyIndex(st.entries, op.key, f);
    match op
    case Set(key, value) => PutIsCorrect(st, key, value, f);
    case Del(key) => DeleteIsCorrect(st, key, f);
    case Get(key) =>
  }

  /** Over every run of sets, deletions and lookups the table keeps its invariant and answers like the map. */
  lemma {:induction false} RunRefinesMap<K(!new), V>(st: State<K, V>, m: Map<K, V>, ops: seq<Op<K, V>>, f: Functions<K>)
    requires Proper(f) && Inv(st, f) && Represents(st, m, f) && RunRoom(st, ops, f)
    ensures RunTable(st, ops, f).1 == RunMap(m, ops, f).1
    ensures Inv(RunTable(st, ops, f).0, f) && Represents(RunTable(st, ops, f).0, RunMap(m, ops, f).0, f)
    decreases |ops|
  {
    if ops != [] {
      StepRefines(st, m, ops[0], f);
      RunRefinesMap(Apply(st, ops[0], f), ApplyMap(m, ops[0], f), ops[1..], f);
    }
  }

  /** Room runs out only with as many pairs as the last bucket count: a run that hands in no more has room throughout,
    however many lookups and deletions it makes. */
  lemma {:induction false} FewSetsHaveRoom<K, V>(st: State<K, V>, ops: seq<Op<K, V>>, f: Functions<K>)
    requires st.level < |PRIMES| && |st.entries| + Sets(ops) <= PRIMES[|PRIMES| - 1]
    ensures RunRoom(st, ops, f)
    decreases |ops|
  {
    if ops != [] {
      var next := Apply(st, ops[0], f);
      assert next.level < |PRIMES| && |next.entries| <= |st.entries| + if ops[0].Set? then 1 else 0;
      FewSetsHaveRoom(next, ops[1..], f);
    }
  }

  function Sets<K, V>(ops: seq<Op<K, V>>): (n: nat) {
    if ops == [] then 0 else (if ops[0].Set? then 1 else 0) + Sets(ops[1..])
  }

  function Empty<K, V>(): (st: State<K, V>) {
    State([], 0, [], [])
  }

  /** The same from the empty table. */
  lemma {:induction false} FreshTableIsAMap<K(!new), V>(ops: seq<Op<K, V>>, f: Functions<K>)
    requires Proper(f) && RunRoom(Empty(), ops, f)
    ensures RunTable(Empty(), ops, f).1 == RunMap((k: K) => None, ops, f).1
  {
    RunRefinesMap(Empty(), (k: K) => None, ops, f);
  }
}
