/** What the hash table of `src/hashtable.c` does with the keys and values it is handed: the arguments of
  `free_key` and `free_value` over every run, and what an iteration yields. */
module HashLedger {
  import opened HashSpec
  import opened Options
  import opened Sequences

  /** The images of the pairs under `g`, with multiplicity. */
  ghost function Bag<E, X>(e: seq<E>, g: E -> X): (b: multiset<X>) {
    if e == [] then multiset{} else multiset{g(e[0])} + Bag(e[1..], g)
  }

  lemma {:induction false} BagCons<E, X>(x: E, e: seq<E>, g: E -> X)
    ensures Bag([x] + e, g) == multiset{g(x)} + Bag(e, g)
  {
    assert ([x] + e)[1..] == e;
  }

  lemma {:induction false} SumAssoc<X>(a: multiset<X>, b: multiset<X>, c: multiset<X>)
    ensures a + (b + c) == (a + b) + c && a + (b + c) == b + (a + c) && a + b == b + a
  {}

  lemma {:induction false} BagWith<E, X>(e: seq<E>, k: nat, x: E, g: E -> X)
    requires k <= |e|
    ensures Bag(With(e, k, x), g) == Bag(e, g) + multiset{g(x)}
  {
    if k == 0 {
      assert With(e, 0, x) == [x] + e;
      BagCons(x, e, g);
      SumAssoc(multiset{g(x)}, Bag(e, g), multiset{});
    } else {
      assert With(e, k, x) == [e[0]] + With(e[1..], k - 1, x);
      BagWith(e[1..], k - 1, x, g);
      BagCons(e[0], With(e[1..], k - 1, x), g);
      SumAssoc(multiset{g(e[0])}, Bag(e[1..], g), multiset{g(x)});
    }
  }

  lemma {:induction false} PutBack<E>(e: seq<E>, k: nat)
    requires k < |e|
    ensures With(Without(e, k), k, e[k]) == e
  {}

  lemma {:induction false} BagWithout<E, X>(e: seq<E>, k: nat, g: E -> X)
    requires k < |e|
    ensures Bag(e, g) == Bag(Without(e, k), g) + multiset{g(e[k])}
  {
    hide *;
    PutBack(e, k);
    BagWith(Without(e, k), k, e[k], g);
  }

  lemma {:induction false} BagReplace<K, V, X>(rest: seq<Pair<K, V>>, acc: seq<Pair<K, V>>, n: nat, g: Pair<K, V> -> X)
    requires n > 0
    ensures Bag(Replace(rest, acc, n), g) == Bag(rest, g) + Bag(acc, g)
    decreases |rest|
  {
    if rest != [] {
      BagReplace(rest[1..], Place(acc, n, rest[0]), n, g);
      BagWith(acc, SlotFirst(acc, n, Slot(rest[0], n)), rest[0], g);
    }
  }

  function KeyOf<K, V>(p: Pair<K, V>): (k: K) { p.key }

  function ValueOf<K, V>(p: Pair<K, V>): (v: Pointer<V>) { p.value }

  /** The keys that are live in the table or have been given back. */
  ghost function KeyAccount<K, V>(st: State<K, V>): (b: multiset<K>) {
    Bag(st.entries, KeyOf) + multiset(st.freedKeys)
  }

  ghost function ValueAccount<K, V>(st: State<K, V>): (b: multiset<Pointer<V>>) {
    Bag(st.entries, ValueOf) + multiset(st.freedValues)
  }

  ghost function KeyHanded<K, V>(op: Op<K, V>): (b: multiset<K>) {
    if op.Set? then multiset{op.key} else multiset{}
  }

  ghost function ValueHanded<K, V>(op: Op<K, V>): (b: multiset<Pointer<V>>) {
    if op.Set? then multiset{op.value} else multiset{}
  }

  /** What a run hands to the table. */
  ghost function KeysHanded<K, V>(ops: seq<Op<K, V>>): (b: multiset<K>) {
    if ops == [] then multiset{} else KeyHanded(ops[0]) + KeysHanded(ops[1..])
  }

  ghost function ValuesHanded<K, V>(ops: seq<Op<K, V>>): (b: multiset<Pointer<V>>) {
    if ops == [] then multiset{} else ValueHanded(ops[0]) + ValuesHanded(ops[1..])
  }

  lemma {:induction false} DeleteKeepsAccounts<K, V>(st: State<K, V>, key: K, f: Functions<K>)
    ensures f.freeKey ==> KeyAccount(Delete(st, key, f)) == KeyAccount(st)
    ensures f.freeValue ==> ValueAccount(Delete(st, key, f)) == ValueAccount(st)
    ensures !f.freeKey ==> Delete(st, key, f).freedKeys == st.freedKeys
    ensures !f.freeValue ==> Delete(st, key, f).freedValues == st.freedValues
  {
    var k := HashSpec.Find(st.entries, key, f.hashKey(key), f);
    hide HashSpec.Find, Without, Bag;
    if k < |st.entries| {
      BagWithout(st.entries, k, KeyOf);
      BagWithout(st.entries, k, ValueOf);
    }
  }

  lemma {:induction false} RehashKeepsBag<K, V, X>(e: seq<Pair<K, V>>, n: nat, g: Pair<K, V> -> X)
    requires n > 0
    ensures Bag(Rehash(e, n), g) == Bag(e, g)
  {
    BagReplace(e, [], n, g);
    assert Bag([], g) == multiset{};
  }

  lemma {:induction false} GrowKeepsAccounts<K, V>(st: State<K, V>)
    requires Room(st)
    ensures KeyAccount(Grow(st)) == KeyAccount(st) && ValueAccount(Grow(st)) == ValueAccount(st)
    ensures Grow(st).freedKeys == st.freedKeys && Grow(st).freedValues == st.freedValues
  {
    if |st.entries| >= PRIMES[st.level] {
      var n := PRIMES[st.level + 1];
      PrimesPositive(st.level + 1);
      var r := Grow(st);
      assert r.entries == Rehash(st.entries, n) && r.freedKeys == st.freedKeys && r.freedValues == st.freedValues;
      RehashKeepsBag(st.entries, n, KeyOf);
      RehashKeepsBag(st.entries, n, ValueOf);
    }
  }

  lemma {:induction false} PlaceAddsToAccounts<K, V>(st: State<K, V>, p: Pair<K, V>)
    requires st.level < |PRIMES| && PRIMES[st.level] > 0
    ensures var r := st.(entries := Place(st.entries, PRIMES[st.level], p));
      KeyAccount(r) == KeyAccount(st) + multiset{p.key} && ValueAccount(r) == ValueAccount(st) + multiset{p.value}
  {
    var q := SlotFirst(st.entries, PRIMES[st.level], Slot(p, PRIMES[st.level]));
    BagWith(st.entries, q, p, KeyOf);
    BagWith(st.entries, q, p, ValueOf);
    SumAssoc(Bag(st.entries, KeyOf), multiset{p.key}, multiset(st.freedKeys));
    SumAssoc(Bag(st.entries, ValueOf), multiset{p.value}, multiset(st.freedValues));
  }

  /** The account after an operation that hands `k` and `v` to the table. */
  ghost predicate Balanced<K, V>(st: State<K, V>, r: State<K, V>, k: multiset<K>, v: multiset<Pointer<V>>,
                                 f: Functions<K>) {
    && (f.freeKey ==> KeyAccount(r) == KeyAccount(st) + k)
    && (f.freeValue ==> ValueAccount(r) == ValueAccount(st) + v)
    && (!f.freeKey ==> r.freedKeys == st.freedKeys)
    && (!f.freeValue ==> r.freedValues == st.freedValues)
  }

  lemma {:induction false} PutBalances<K, V>(st: State<K, V>, key: K, value: Pointer<V>, f: Functions<K>)
    requires Room(Delete(st, key, f))
    ensures Balanced(st, Put(st, key, value, f), multiset{key}, multiset{value}, f)
  {
    var d := Delete(st, key, f);
    DeleteKeepsAccounts(st, key, f);
    GrowKeepsAccounts(d);
    var g := Grow(d);
    PrimesPositive(g.level);
    PlaceAddsToAccounts(g, Pair(key, value, f.hashKey(key)));
  }

  lemma {:induction false} ApplyBalances<K, V>(st: State<K, V>, op: Op<K, V>, f: Functions<K>)
    requires StepRoom(st, op, f)
    ensures Balanced(st, Apply(st, op, f), KeyHanded(op), ValueHanded(op), f)
  {
    match op
    case Set(key, value) => PutBalances(st, key, value, f);
    case Del(key) => DeleteKeepsAccounts(st, key, f);
    case Get(key) =>
  }

  lemma {:induction false} BalancedTrans<K, V>(a: State<K, V>, b: State<K, V>, c: State<K, V>,
                                               k: multiset<K>, l: multiset<K>,
                                               v: multiset<Pointer<V>>, w: multiset<Pointer<V>>, f: Functions<K>)
    requires Balanced(a, b, k, v, f) && Balanced(b, c, l, w, f)
    ensures Balanced(a, c, k + l, v + w, f)
  {}

  /** After every run: what was handed in is still live or has been released, nothing twice and nothing else. */
  lemma {:induction false} RunBalances<K, V>(st: State<K, V>, ops: seq<Op<K, V>>, f: Functions<K>)
    requires RunRoom(st, ops, f)
    ensures Balanced(st, RunTable(st, ops, f).0, KeysHanded(ops), ValuesHanded(ops), f)
    decreases |ops|
  {
    if ops != [] {
      var next := Apply(st, ops[0], f);
      ApplyBalances(st, ops[0], f);
      RunBalances(next, ops[1..], f);
      BalancedTrans(st, next, RunTable(next, ops[1..], f).0, KeyHanded(ops[0]), KeysHanded(ops[1..]),
                    ValueHanded(ops[0]), ValuesHanded(ops[1..]), f);
    }
  }

  /** The pairs' keys and values in list order. */
  function Project<E, X>(e: seq<E>, g: E -> X): (r: seq<X>)
    ensures |r| == |e|
    ensures forall i {:trigger r[i]} | 0 <= i < |e| :: r[i] == g(e[i])
  {
    if e == [] then [] else [g(e[0])] + Project(e[1..], g)
  }

  lemma {:induction false} ProjectBag<E, X>(e: seq<E>, g: E -> X)
    ensures multiset(Project(e, g)) == Bag(e, g)
  {
    if e != [] {
      ProjectBag(e[1..], g);
    }
  }

  /** `hashtable_close`: every remaining pair is released. */
  function Close<K, V>(st: State<K, V>, f: Functions<K>): (r: State<K, V>) {
    State([], st.level,
          if f.freeKey then st.freedKeys + Project(st.entries, KeyOf) else st.freedKeys,
          if f.freeValue then st.freedValues + Project(st.entries, ValueOf) else st.freedValues)
  }

  lemma {:induction false} ClosePaysAccounts<K, V>(st: State<K, V>, f: Functions<K>)
    ensures f.freeKey ==> multiset(Close(st, f).freedKeys) == KeyAccount(st)
    ensures f.freeValue ==> multiset(Close(st, f).freedValues) == ValueAccount(st)
  {
    ProjectBag(st.entries, KeyOf);
    ProjectBag(st.entries, ValueOf);
    SumAssoc(Bag(st.entries, KeyOf), multiset(st.freedKeys), multiset{});
    SumAssoc(Bag(st.entries, ValueOf), multiset(st.freedValues), multiset{});
  }

  lemma {:induction false} CloseAfterBalance<K, V>(r: State<K, V>, k: multiset<K>, v: multiset<Pointer<V>>,
                                                   f: Functions<K>)
    requires Balanced(Empty(), r, k, v, f)
    ensures f.freeKey ==> multiset(Close(r, f).freedKeys) == k
    ensures f.freeValue ==> multiset(Close(r, f).freedValues) == v
    ensures !f.freeKey ==> Close(r, f).freedKeys == []
    ensures !f.freeValue ==> Close(r, f).freedValues == []
  {
    ClosePaysAccounts(r, f);
    var st: State<K, V> := Empty();
    assert KeyAccount(st) == multiset{} && ValueAccount(st) == multiset{};
  }

  /** Over a run ended by `hashtable_close`, exactly what was handed in is released, each as often as handed in. */
  lemma {:induction false} ClosedTableReleasedAll<K, V>(ops: seq<Op<K, V>>, f: Functions<K>)
    requires RunRoom(Empty(), ops, f)
    ensures var r := Close(RunTable(Empty(), ops, f).0, f);
      && (f.freeKey ==> multiset(r.freedKeys) == KeysHanded(ops))
      && (f.freeValue ==> multiset(r.freedValues) == ValuesHanded(ops))
      && (!f.freeKey ==> r.freedKeys == []) && (!f.freeValue ==> r.freedValues == [])
  {
    RunBalances(Empty(), ops, f);
    hide *;
    CloseAfterBalance(RunTable(Empty(), ops, f).0, KeysHanded(ops), ValuesHanded(ops), f);
  }

  /** An iteration, which yields the pairs in list order, meets every mapped key exactly once and nothing else. */
  lemma {:induction false} IterationIsExact<K(!new), V>(st: State<K, V>, key: K, f: Functions<K>)
    requires Proper(f) && Inv(st, f)
    ensures Lookup(st.entries, key, f).Some? <==>
            exists i | 0 <= i < |st.entries| :: f.cmpKeys(st.entries[i].key, key)
    ensures forall i, j | 0 <= i < |st.entries| && 0 <= j < |st.entries|
                          && f.cmpKeys(st.entries[i].key, key) && f.cmpKeys(st.entries[j].key, key) :: i == j
    ensures forall i | 0 <= i < |st.entries| && f.cmpKeys(st.entries[i].key, key) ::
              Lookup(st.entries, key, f) == Some(st.entries[i].value)
  {
    LookupAbsent(st.entries, key, f);
    forall i | 0 <= i < |st.entries| && f.cmpKeys(st.entries[i].key, key) ensures i == KeyIndex(st.entries, key, f) {
      LookupAt(st.entries, i, key, f);
    }
  }
}
