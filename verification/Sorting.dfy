/** The value-level meaning of the bottom-up merge sort of `src/list.c`.

  `Merge`, `Pass` and `Sort` say which sequence of nodes the linked program leaves behind; the heap
  program is proved equal to them in `LinkedList.dfy`.  This module proves what that sequence is worth:
  it is ordered, it is a permutation, it is stable, it is the only such sequence, and it is reached
  within the promised number of passes and comparisons.

  A comparator has the type of the C one: a value `<= 0` means that its first argument may come first. */
module Sorting {

  /** `cmp` orders the members of `dom` like a total preorder. */
  ghost predicate TotalPreorder<E>(cmp: (E, E) -> int, dom: set<E>) {
    && (forall a, b | a in dom && b in dom :: cmp(a, b) <= 0 || cmp(b, a) <= 0)
    && (forall a, b, c | a in dom && b in dom && c in dom && cmp(a, b) <= 0 && cmp(b, c) <= 0 :: cmp(a, c) <= 0)
  }

  ghost predicate Over<E>(s: seq<E>, dom: set<E>) {
    forall i | 0 <= i < |s| :: s[i] in dom
  }

  ghost predicate Ordered<E>(s: seq<E>, cmp: (E, E) -> int) {
    forall i, j | 0 <= i < j < |s| :: cmp(s[i], s[j]) <= 0
  }

  /** Neither of the two has to come before the other. */
  predicate Tied<E>(cmp: (E, E) -> int, a: E, b: E) {
    cmp(a, b) <= 0 && cmp(b, a) <= 0
  }

  /** The members of `s` tied with `x`, in the order of `s`. */
  ghost function Class<E>(x: E, s: seq<E>, cmp: (E, E) -> int): (c: seq<E>) {
    if s == [] then []
    else if Tied(cmp, x, s[0]) then [s[0]] + Class(x, s[1..], cmp)
    else Class(x, s[1..], cmp)
  }

  /** `r` lists the members of `s` so that tied ones keep their relative order. */
  ghost predicate Stable<E>(s: seq<E>, r: seq<E>, cmp: (E, E) -> int, dom: set<E>) {
    forall x | x in dom :: Class(x, r, cmp) == Class(x, s, cmp)
  }

  ghost predicate Before<E>(s: seq<E>, x: E, y: E) {
    exists i, j :: 0 <= i < j < |s| && s[i] == x && s[j] == y
  }

  // ---------------------------------------------------------------- the algorithm on sequences

  function Take<E>(s: seq<E>, n: nat): (r: seq<E>) {
    if |s| <= n then s else s[..n]
  }

  function Drop<E>(s: seq<E>, n: nat): (r: seq<E>) {
    if |s| <= n then [] else s[n..]
  }

  /** One merge; on a tie the left run goes first. */
  function Merge<E>(a: seq<E>, b: seq<E>, cmp: (E, E) -> int): (r: seq<E>)
    ensures |r| == |a| + |b|
    decreases |a| + |b|
  {
    if a == [] then b
    else if b == [] then a
    else if cmp(a[0], b[0]) <= 0 then [a[0]] + Merge(a[1..], b, cmp)
    else [b[0]] + Merge(a, b[1..], cmp)
  }

  /** One pass: neighbouring runs of `w` elements are merged pairwise. */
  function Pass<E>(s: seq<E>, w: nat, cmp: (E, E) -> int): (r: seq<E>)
    requires w > 0
    ensures |r| == |s|
    decreases |s|
  {
    if s == [] then []
    else Merge(Take(s, w), Take(Drop(s, w), w), cmp) + Pass(Drop(Drop(s, w), w), w, cmp)
  }

  /** The passes with run lengths `w`, `2 * w`, ... up to the first one that needed a single merge. */
  function SortFrom<E>(s: seq<E>, w: nat, cmp: (E, E) -> int): (r: seq<E>)
    requires w > 0
    ensures |r| == |s|
    decreases |s| - w
  {
    if |s| <= 2 * w then Pass(s, w, cmp) else SortFrom(Pass(s, w, cmp), 2 * w, cmp)
  }

  function Sort<E>(s: seq<E>, cmp: (E, E) -> int): (r: seq<E>)
    ensures |r| == |s|
  {
    if |s| <= 1 then s else SortFrom(s, 1, cmp)
  }

  /** The reference: insert the elements one by one from the right, each before those tied with it. */
  function Insert<E>(x: E, s: seq<E>, cmp: (E, E) -> int): (r: seq<E>) {
    if s == [] || cmp(x, s[0]) <= 0 then [x] + s else [s[0]] + Insert(x, s[1..], cmp)
  }

  function InsertionSort<E>(s: seq<E>, cmp: (E, E) -> int): (r: seq<E>) {
    if s == [] then [] else Insert(s[0], InsertionSort(s[1..], cmp), cmp)
  }

  // ---------------------------------------------------------------- permutation

  lemma {:induction false} TakeDrop<E>(s: seq<E>, n: nat)
    ensures Take(s, n) + Drop(s, n) == s
  {}

  lemma {:induction false} MultisetCons<E>(s: seq<E>)
    requires s != []
    ensures multiset(s) == multiset{s[0]} + multiset(s[1..])
  {
    assert s == [s[0]] + s[1..];
  }

  lemma {:induction false} MergePermutes<E>(a: seq<E>, b: seq<E>, cmp: (E, E) -> int)
    ensures multiset(Merge(a, b, cmp)) == multiset(a) + multiset(b)
    decreases |a| + |b|
  {
    if a == [] || b == [] {
    } else if cmp(a[0], b[0]) <= 0 {
      MergePermutes(a[1..], b, cmp);
      MultisetCons(a);
    } else {
      MergePermutes(a, b[1..], cmp);
      MultisetCons(b);
    }
  }

  lemma {:induction false} PassPermutes<E>(s: seq<E>, w: nat, cmp: (E, E) -> int)
    requires w > 0
    ensures multiset(Pass(s, w, cmp)) == multiset(s)
    decreases |s|
  {
    if s != [] {
      var a, t := Take(s, w), Drop(s, w);
      var b, u := Take(t, w), Drop(t, w);
      TakeDrop(s, w);
      TakeDrop(t, w);
      MergePermutes(a, b, cmp);
      PassPermutes(u, w, cmp);
      assert s == a + (b + u);
    }
  }

  lemma {:induction false} SortFromPermutes<E>(s: seq<E>, w: nat, cmp: (E, E) -> int)
    requires w > 0
    ensures multiset(SortFrom(s, w, cmp)) == multiset(s)
    decreases |s| - w
  {
    PassPermutes(s, w, cmp);
    if |s| > 2 * w {
      SortFromPermutes(Pass(s, w, cmp), 2 * w, cmp);
    }
  }

  /** Sorting only rearranges, whatever the comparator answers. */
  lemma {:induction false} SortPermutes<E>(s: seq<E>, cmp: (E, E) -> int)
    ensures multiset(Sort(s, cmp)) == multiset(s)
  {
    if |s| > 1 {
      SortFromPermutes(s, 1, cmp);
    }
  }

  lemma {:induction false} SameMembers<E>(s: seq<E>, r: seq<E>, dom: set<E>)
    requires multiset(s) == multiset(r) && Over(s, dom)
    ensures Over(r, dom)
  {
    forall i | 0 <= i < |r| ensures r[i] in dom {
      assert r[i] in multiset(r);
      assert r[i] in s;
    }
  }

  // ---------------------------------------------------------------- order

  /** `x` may come before every member of `s`. */
  ghost predicate Below<E>(x: E, s: seq<E>, cmp: (E, E) -> int) {
    forall i | 0 <= i < |s| :: cmp(x, s[i]) <= 0
  }

  lemma {:induction false} OrderedCons<E>(x: E, s: seq<E>, cmp: (E, E) -> int)
    ensures Ordered([x] + s, cmp) <==> Below(x, s, cmp) && Ordered(s, cmp)
  {
    var t := [x] + s;
    if Ordered(t, cmp) {
      forall i | 0 <= i < |s| ensures cmp(x, s[i]) <= 0 { assert t[0] == x && t[i + 1] == s[i]; }
      forall i, j | 0 <= i < j < |s| ensures cmp(s[i], s[j]) <= 0 { assert t[i + 1] == s[i] && t[j + 1] == s[j]; }
    }
  }

  lemma {:induction false} OrderedSplit<E>(s: seq<E>, cmp: (E, E) -> int)
    requires s != []
    ensures Ordered(s, cmp) <==> Below(s[0], s[1..], cmp) && Ordered(s[1..], cmp)
  {
    OrderedCons(s[0], s[1..], cmp);
    assert s == [s[0]] + s[1..];
  }

  lemma {:induction false} BelowTrans<E>(x: E, y: E, s: seq<E>, cmp: (E, E) -> int, dom: set<E>)
    requires TotalPreorder(cmp, dom) && x in dom && y in dom && Over(s, dom)
    requires cmp(x, y) <= 0 && Below(y, s, cmp)
    ensures Below(x, [y] + s, cmp)
  {}

  lemma {:induction false} MergeBelow<E>(x: E, a: seq<E>, b: seq<E>, cmp: (E, E) -> int)
    requires Below(x, a, cmp) && Below(x, b, cmp)
    ensures Below(x, Merge(a, b, cmp), cmp)
    decreases |a| + |b|
  {
    if a == [] || b == [] {
    } else if cmp(a[0], b[0]) <= 0 {
      MergeBelow(x, a[1..], b, cmp);
    } else {
      MergeBelow(x, a, b[1..], cmp);
    }
  }

  lemma {:induction false} MergeOrdered<E>(a: seq<E>, b: seq<E>, cmp: (E, E) -> int, dom: set<E>)
    requires TotalPreorder(cmp, dom) && Over(a, dom) && Over(b, dom)
    requires Ordered(a, cmp) && Ordered(b, cmp)
    ensures Ordered(Merge(a, b, cmp), cmp)
    decreases |a| + |b|
  {
    if a == [] || b == [] {
    } else {
      OrderedSplit(a, cmp);
      OrderedSplit(b, cmp);
      var x, y := a[0], b[0];
      assert a == [x] + a[1..] && b == [y] + b[1..];
      if cmp(x, y) <= 0 {
        MergeOrdered(a[1..], b, cmp, dom);
        BelowTrans(x, y, b[1..], cmp, dom);
        MergeBelow(x, a[1..], b, cmp);
        OrderedCons(x, Merge(a[1..], b, cmp), cmp);
      } else {
        MergeOrdered(a, b[1..], cmp, dom);
        BelowTrans(y, x, a[1..], cmp, dom);
        MergeBelow(y, a, b[1..], cmp);
        OrderedCons(y, Merge(a, b[1..], cmp), cmp);
      }
    }
  }

  /** Every aligned block of `w` elements is a sorted run. */
  ghost predicate Runs<E>(s: seq<E>, w: nat, cmp: (E, E) -> int)
    requires w > 0
    decreases |s|
  {
    s == [] || (Ordered(Take(s, w), cmp) && Runs(Drop(s, w), w, cmp))
  }

  /** A pass doubles the length of the sorted runs. */
  lemma {:induction false} PassDoublesRuns<E>(s: seq<E>, w: nat, cmp: (E, E) -> int, dom: set<E>)
    requires w > 0 && TotalPreorder(cmp, dom) && Over(s, dom)
    requires Runs(s, w, cmp)
    ensures Runs(Pass(s, w, cmp), 2 * w, cmp)
    decreases |s|
  {
    if s != [] {
      var a, t := Take(s, w), Drop(s, w);
      var b, u := Take(t, w), Drop(t, w);
      MergeOrdered(a, b, cmp, dom);
      PassDoublesRuns(u, w, cmp, dom);
      var m, r := Merge(a, b, cmp), Pass(u, w, cmp);
      assert Pass(s, w, cmp) == m + r;
      assert Take(m + r, 2 * w) == m && Drop(m + r, 2 * w) == r;
    }
  }

  lemma {:induction false} SingletonsAreRuns<E>(s: seq<E>, cmp: (E, E) -> int)
    ensures Runs(s, 1, cmp)
    decreases |s|
  {
    if s != [] {
      SingletonsAreRuns(Drop(s, 1), cmp);
    }
  }

  lemma {:induction false} SortFromOrders<E>(s: seq<E>, w: nat, cmp: (E, E) -> int, dom: set<E>)
    requires w > 0 && TotalPreorder(cmp, dom) && Over(s, dom)
    requires Runs(s, w, cmp)
    ensures Ordered(SortFrom(s, w, cmp), cmp)
    decreases |s| - w
  {
    PassDoublesRuns(s, w, cmp, dom);
    var r := Pass(s, w, cmp);
    if |s| > 2 * w {
      PassPermutes(s, w, cmp);
      SameMembers(s, r, dom);
      SortFromOrders(r, 2 * w, cmp, dom);
    } else {
      assert Take(r, 2 * w) == r;
    }
  }

  lemma {:induction false} SortOrders<E>(s: seq<E>, cmp: (E, E) -> int, dom: set<E>)
    requires TotalPreorder(cmp, dom) && Over(s, dom)
    ensures Ordered(Sort(s, cmp), cmp)
  {
    if |s| > 1 {
      SingletonsAreRuns(s, cmp);
      SortFromOrders(s, 1, cmp, dom);
    }
  }

  // ---------------------------------------------------------------- stability

  lemma {:induction false} ClassConcat<E>(x: E, a: seq<E>, b: seq<E>, cmp: (E, E) -> int)
    ensures Class(x, a + b, cmp) == Class(x, a, cmp) + Class(x, b, cmp)
    decreases |a|
  {
    if a == [] {
      assert a + b == b;
    } else {
      ClassConcat(x, a[1..], b, cmp);
      assert (a + b)[1..] == a[1..] + b;
    }
  }

  lemma {:induction false} ClassEmpty<E>(x: E, a: seq<E>, cmp: (E, E) -> int)
    requires forall i | 0 <= i < |a| :: !Tied(cmp, x, a[i])
    ensures Class(x, a, cmp) == []
  {
    if a != [] {
      ClassEmpty(x, a[1..], cmp);
    }
  }

  lemma {:induction false} ClassAbove<E>(x: E, a: seq<E>, y: E, cmp: (E, E) -> int, dom: set<E>)
    requires TotalPreorder(cmp, dom) && Over(a, dom) && x in dom && y in dom && Ordered(a, cmp)
    requires a != [] && cmp(a[0], y) > 0 && Tied(cmp, x, y)
    ensures Class(x, a, cmp) == []
  {
    forall i | 0 <= i < |a| ensures !Tied(cmp, x, a[i]) {
      assert i == 0 || cmp(a[0], a[i]) <= 0;
      assert cmp(a[i], y) > 0;
    }
    ClassEmpty(x, a, cmp);
  }

  lemma {:induction false} Assoc<E>(a: seq<E>, b: seq<E>, c: seq<E>)
    ensures a + (b + c) == (a + b) + c
  {}

  lemma {:induction false} ClassHead<E>(x: E, y: E, s: seq<E>, cmp: (E, E) -> int)
    ensures Class(x, [y] + s, cmp) == (if Tied(cmp, x, y) then [y] else []) + Class(x, s, cmp)
  {
    assert ([y] + s)[1..] == s;
  }

  lemma {:induction false} ClassSplit<E>(x: E, s: seq<E>, cmp: (E, E) -> int)
    requires s != []
    ensures Class(x, s, cmp) == (if Tied(cmp, x, s[0]) then [s[0]] else []) + Class(x, s[1..], cmp)
  {}

  /** A merge lists every class of ties as the left run followed by the right run. */
  lemma {:induction false} MergeClass<E>(x: E, a: seq<E>, b: seq<E>, cmp: (E, E) -> int, dom: set<E>)
    requires TotalPreorder(cmp, dom) && Over(a, dom) && Over(b, dom) && x in dom
    requires Ordered(a, cmp)
    ensures Class(x, Merge(a, b, cmp), cmp) == Class(x, a, cmp) + Class(x, b, cmp)
    decreases |a| + |b|
  {
    if a == [] || b == [] {
    } else if cmp(a[0], b[0]) <= 0 {
      MergeClass(x, a[1..], b, cmp, dom);
      ClassHead(x, a[0], Merge(a[1..], b, cmp), cmp);
      ClassSplit(x, a, cmp);
      Assoc(if Tied(cmp, x, a[0]) then [a[0]] else [], Class(x, a[1..], cmp), Class(x, b, cmp));
    } else {
      MergeClass(x, a, b[1..], cmp, dom);
      ClassHead(x, b[0], Merge(a, b[1..], cmp), cmp);
      ClassSplit(x, b, cmp);
      if Tied(cmp, x, b[0]) {
        ClassAbove(x, a, b[0], cmp, dom);
      }
      var h, c, d := if Tied(cmp, x, b[0]) then [b[0]] else [], Class(x, a, cmp), Class(x, b[1..], cmp);
      assert h + (c + d) == c + (h + d);
    }
  }

  lemma {:induction false} PassClass<E>(x: E, s: seq<E>, w: nat, cmp: (E, E) -> int, dom: set<E>)
    requires w > 0 && TotalPreorder(cmp, dom) && Over(s, dom) && x in dom
    requires Runs(s, w, cmp)
    ensures Class(x, Pass(s, w, cmp), cmp) == Class(x, s, cmp)
    decreases |s|
  {
    if s != [] {
      var a, t := Take(s, w), Drop(s, w);
      var b, u := Take(t, w), Drop(t, w);
      TakeDrop(s, w);
      TakeDrop(t, w);
      assert Ordered(a, cmp) && Runs(t, w, cmp) && Runs(u, w, cmp);
      MergeClass(x, a, b, cmp, dom);
      PassClass(x, u, w, cmp, dom);
      assert Pass(s, w, cmp) == Merge(a, b, cmp) + Pass(u, w, cmp);
      ClassConcat(x, Merge(a, b, cmp), Pass(u, w, cmp), cmp);
      ClassConcat(x, a, t, cmp);
      ClassConcat(x, b, u, cmp);
      Assoc(Class(x, a, cmp), Class(x, b, cmp), Class(x, u, cmp));
    }
  }

  lemma {:induction false} SortFromClass<E>(x: E, s: seq<E>, w: nat, cmp: (E, E) -> int, dom: set<E>)
    requires w > 0 && TotalPreorder(cmp, dom) && Over(s, dom) && x in dom
    requires Runs(s, w, cmp)
    ensures Class(x, SortFrom(s, w, cmp), cmp) == Class(x, s, cmp)
    decreases |s| - w
  {
    PassClass(x, s, w, cmp, dom);
    if |s| > 2 * w {
      PassPermutes(s, w, cmp);
      SameMembers(s, Pass(s, w, cmp), dom);
      PassDoublesRuns(s, w, cmp, dom);
      SortFromClass(x, Pass(s, w, cmp), 2 * w, cmp, dom);
    }
  }

  lemma {:induction false} SortIsStable<E>(s: seq<E>, cmp: (E, E) -> int, dom: set<E>)
    requires TotalPreorder(cmp, dom) && Over(s, dom)
    ensures Stable(s, Sort(s, cmp), cmp, dom)
  {
    if |s| > 1 {
      SingletonsAreRuns(s, cmp);
      forall x | x in dom ensures Class(x, Sort(s, cmp), cmp) == Class(x, s, cmp) {
        SortFromClass(x, s, 1, cmp, dom);
      }
    }
  }

  lemma {:induction false} ClassHas<E>(x: E, y: E, s: seq<E>, cmp: (E, E) -> int)
    ensures y in Class(x, s, cmp) <==> y in s && Tied(cmp, x, y)
  {
    if s != [] {
      ClassHas(x, y, s[1..], cmp);
      assert s == [s[0]] + s[1..];
    }
  }

  lemma {:induction false} BeforeCons<E>(z: E, t: seq<E>, x: E, y: E)
    ensures Before([z] + t, x, y) <==> (z == x && y in t) || Before(t, x, y)
  {
    var s := [z] + t;
    if Before(s, x, y) {
      var i, j :| 0 <= i < j < |s| && s[i] == x && s[j] == y;
      assert t[j - 1] == y;
      if i > 0 {
        assert t[i - 1] == x;
      }
    }
    if z == x && y in t {
      var j :| 0 <= j < |t| && t[j] == y;
      assert s[0] == x && s[j + 1] == y;
    }
    if Before(t, x, y) {
      var i, j :| 0 <= i < j < |t| && t[i] == x && t[j] == y;
      assert s[i + 1] == x && s[j + 1] == y;
    }
  }

  lemma {:induction false} ClassKeepsOrder<E>(x: E, y: E, s: seq<E>, cmp: (E, E) -> int)
    requires Tied(cmp, x, x) && Tied(cmp, x, y)
    ensures Before(Class(x, s, cmp), x, y) <==> Before(s, x, y)
  {
    if s != [] {
      ClassKeepsOrder(x, y, s[1..], cmp);
      ClassHas(x, y, s[1..], cmp);
      BeforeCons(s[0], s[1..], x, y);
      assert s == [s[0]] + s[1..];
      if Tied(cmp, x, s[0]) {
        BeforeCons(s[0], Class(x, s[1..], cmp), x, y);
      }
    }
  }

  /** Stability in terms of positions: tied elements come out in the order in which they went in. */
  lemma {:induction false} SortKeepsOrderOfTies<E>(s: seq<E>, cmp: (E, E) -> int, x: E, y: E, dom: set<E>)
    requires TotalPreorder(cmp, dom) && Over(s, dom) && x in dom
    requires Tied(cmp, x, y)
    ensures Before(Sort(s, cmp), x, y) <==> Before(s, x, y)
  {
    SortIsStable(s, cmp, dom);
    ClassKeepsOrder(x, y, s, cmp);
    ClassKeepsOrder(x, y, Sort(s, cmp), cmp);
  }

  // ---------------------------------------------------------------- uniqueness

  lemma {:induction false} OrderedHead<E>(r: seq<E>, x: E, cmp: (E, E) -> int, dom: set<E>)
    requires TotalPreorder(cmp, dom) && Over(r, dom) && Ordered(r, cmp) && x in r
    ensures cmp(r[0], x) <= 0
  {
    var i :| 0 <= i < |r| && r[i] == x;
  }

  lemma {:induction false} HeadUnique<E>(r: seq<E>, q: seq<E>, cmp: (E, E) -> int, dom: set<E>)
    requires TotalPreorder(cmp, dom) && Over(r, dom) && Over(q, dom)
    requires Ordered(r, cmp) && Ordered(q, cmp) && r != [] && q != []
    requires Class(r[0], r, cmp) == Class(r[0], q, cmp)
    requires Class(q[0], r, cmp) == Class(q[0], q, cmp)
    ensures r[0] == q[0]
  {
    var x, y := r[0], q[0];
    ClassHas(x, x, r, cmp);
    ClassHas(x, x, q, cmp);
    ClassHas(y, y, q, cmp);
    ClassHas(y, y, r, cmp);
    OrderedHead(r, y, cmp, dom);
    OrderedHead(q, x, cmp, dom);
    ClassSplit(x, r, cmp);
    ClassSplit(x, q, cmp);
    assert Class(x, r, cmp)[0] == x && Class(x, q, cmp)[0] == y;
  }

  lemma {:induction false} TailClass<E>(z: E, r: seq<E>, q: seq<E>, cmp: (E, E) -> int)
    requires r != [] && q != [] && r[0] == q[0] && Class(z, r, cmp) == Class(z, q, cmp)
    ensures Class(z, r[1..], cmp) == Class(z, q[1..], cmp)
  {
    ClassSplit(z, r, cmp);
    ClassSplit(z, q, cmp);
    var h := if Tied(cmp, z, r[0]) then [r[0]] else [];
    assert (h + Class(z, r[1..], cmp))[|h|..] == (h + Class(z, q[1..], cmp))[|h|..];
  }

  /** The classes of ties leave no choice to an ordered arrangement. */
  lemma {:induction false} OrderedStableUnique<E>(r: seq<E>, q: seq<E>, cmp: (E, E) -> int, dom: set<E>)
    requires TotalPreorder(cmp, dom) && Over(r, dom) && Over(q, dom)
    requires Ordered(r, cmp) && Ordered(q, cmp)
    requires Stable(r, q, cmp, dom)
    ensures r == q
    decreases |r|
  {
    if r == [] || q == [] {
      if r != [] { ClassHas(r[0], r[0], r, cmp); }
      if q != [] { ClassHas(q[0], q[0], q, cmp); }
    } else {
      HeadUnique(r, q, cmp, dom);
      forall z | z in dom ensures Class(z, q[1..], cmp) == Class(z, r[1..], cmp) {
        TailClass(z, r, q, cmp);
      }
      OrderedStableUnique(r[1..], q[1..], cmp, dom);
      assert r == [r[0]] + r[1..] && q == [q[0]] + q[1..];
    }
  }

  lemma {:induction false} InsertClass<E>(z: E, x: E, s: seq<E>, cmp: (E, E) -> int, dom: set<E>)
    requires TotalPreorder(cmp, dom) && Over(s, dom) && x in dom && z in dom
    ensures Class(z, Insert(x, s, cmp), cmp) == Class(z, [x], cmp) + Class(z, s, cmp)
  {
    if s == [] || cmp(x, s[0]) <= 0 {
      ClassConcat(z, [x], s, cmp);
    } else {
      InsertClass(z, x, s[1..], cmp, dom);
      var t := Insert(x, s[1..], cmp);
      assert ([s[0]] + t)[1..] == t;
      assert !(Tied(cmp, z, s[0]) && Tied(cmp, z, x));
    }
  }

  lemma {:induction false} InsertBelow<E>(z: E, x: E, s: seq<E>, cmp: (E, E) -> int)
    requires cmp(z, x) <= 0 && Below(z, s, cmp)
    ensures Below(z, Insert(x, s, cmp), cmp)
  {
    if s != [] && cmp(x, s[0]) > 0 {
      InsertBelow(z, x, s[1..], cmp);
    }
  }

  lemma {:induction false} InsertOver<E>(x: E, s: seq<E>, cmp: (E, E) -> int, dom: set<E>)
    requires Over(s, dom) && x in dom
    ensures Over(Insert(x, s, cmp), dom)
  {
    if s != [] && cmp(x, s[0]) > 0 {
      InsertOver(x, s[1..], cmp, dom);
    }
  }

  lemma {:induction false} InsertOrdered<E>(x: E, s: seq<E>, cmp: (E, E) -> int, dom: set<E>)
    requires TotalPreorder(cmp, dom) && Over(s, dom) && x in dom && Ordered(s, cmp)
    ensures Ordered(Insert(x, s, cmp), cmp)
  {
    if s == [] {
    } else {
      OrderedSplit(s, cmp);
      assert s == [s[0]] + s[1..];
      if cmp(x, s[0]) <= 0 {
        BelowTrans(x, s[0], s[1..], cmp, dom);
        OrderedCons(x, s, cmp);
      } else {
        InsertOrdered(x, s[1..], cmp, dom);
        InsertBelow(s[0], x, s[1..], cmp);
        OrderedCons(s[0], Insert(x, s[1..], cmp), cmp);
      }
    }
  }

  lemma {:induction false} InsertionSortSpec<E>(s: seq<E>, cmp: (E, E) -> int, dom: set<E>)
    requires TotalPreorder(cmp, dom) && Over(s, dom)
    ensures Over(InsertionSort(s, cmp), dom) && Ordered(InsertionSort(s, cmp), cmp)
    ensures Stable(s, InsertionSort(s, cmp), cmp, dom)
  {
    if s != [] {
      InsertionSortSpec(s[1..], cmp, dom);
      InsertOrdered(s[0], InsertionSort(s[1..], cmp), cmp, dom);
      InsertOver(s[0], InsertionSort(s[1..], cmp), cmp, dom);
      forall z | z in dom ensures Class(z, InsertionSort(s, cmp), cmp) == Class(z, s, cmp) {
        InsertClass(z, s[0], InsertionSort(s[1..], cmp), cmp, dom);
        ClassConcat(z, [s[0]], s[1..], cmp);
        assert s == [s[0]] + s[1..];
        assert Class(z, InsertionSort(s[1..], cmp), cmp) == Class(z, s[1..], cmp);
      }
    }
  }

  /** The bottom-up merge sort computes exactly what insertion sort computes. */
  lemma {:induction false} SortIsInsertionSort<E>(s: seq<E>, cmp: (E, E) -> int, dom: set<E>)
    requires TotalPreorder(cmp, dom) && Over(s, dom)
    ensures Sort(s, cmp) == InsertionSort(s, cmp)
  {
    SortOrders(s, cmp, dom);
    SortIsStable(s, cmp, dom);
    SortPermutes(s, cmp);
    SameMembers(s, Sort(s, cmp), dom);
    InsertionSortSpec(s, cmp, dom);
    OrderedStableUnique(InsertionSort(s, cmp), Sort(s, cmp), cmp, dom);
  }

  // ---------------------------------------------------------------- passes and comparisons

  function Pow2(k: nat): (r: nat)
    ensures r >= 1
  {
    if k == 0 then 1 else 2 * Pow2(k - 1)
  }

  /** How many passes `SortFrom` makes over `n` elements. */
  function PassesFrom(n: nat, w: nat): (k: nat)
    requires w > 0
    decreases n - w
  {
    if n <= 2 * w then 1 else 1 + PassesFrom(n, 2 * w)
  }

  function Passes(n: nat): (k: nat) {
    if n <= 1 then 0 else PassesFrom(n, 1)
  }

  lemma {:induction false} DoubleFactor(w: nat, p: nat)
    ensures w * (2 * p) == (2 * w) * p
  {}

  lemma {:induction false} PassesFromBound(n: nat, w: nat)
    requires 0 < w < n
    ensures PassesFrom(n, w) >= 1
    ensures w * Pow2(PassesFrom(n, w) - 1) < n <= w * Pow2(PassesFrom(n, w))
    decreases n - w
  {
    if n > 2 * w {
      PassesFromBound(n, 2 * w);
      var k := PassesFrom(n, 2 * w);
      DoubleFactor(w, Pow2(k));
      DoubleFactor(w, Pow2(k - 1));
    }
  }

  lemma {:induction false} Pow2Monotone(j: nat, k: nat)
    requires j <= k
    ensures Pow2(j) <= Pow2(k)
    decreases k - j
  {
    if j < k {
      Pow2Monotone(j, k - 1);
    }
  }

  /** The number of passes is the least `k` with `2^k >= n`. */
  lemma {:induction false} PassesIsLeastLog(n: nat, k: nat)
    requires n >= 1
    ensures Pow2(k) >= n <==> k >= Passes(n)
  {
    if n >= 2 {
      PassesFromBound(n, 1);
      if k >= Passes(n) {
        Pow2Monotone(Passes(n), k);
      } else {
        Pow2Monotone(k, Passes(n) - 1);
      }
    }
  }

  /** The list at the start of pass `k + 1`. */
  function AfterPasses<E>(s: seq<E>, k: nat, cmp: (E, E) -> int): (r: seq<E>) {
    if k == 0 then s else Pass(AfterPasses(s, k - 1, cmp), Pow2(k - 1), cmp)
  }

  /** At the start of every pass the aligned blocks of the current run length are sorted. */
  lemma {:induction false} RunsAtEveryPass<E>(s: seq<E>, k: nat, cmp: (E, E) -> int, dom: set<E>)
    requires TotalPreorder(cmp, dom) && Over(s, dom)
    ensures Runs(AfterPasses(s, k, cmp), Pow2(k), cmp)
    ensures Over(AfterPasses(s, k, cmp), dom)
  {
    if k == 0 {
      SingletonsAreRuns(s, cmp);
    } else {
      var r := AfterPasses(s, k - 1, cmp);
      RunsAtEveryPass(s, k - 1, cmp, dom);
      PassDoublesRuns(r, Pow2(k - 1), cmp, dom);
      PassPermutes(r, Pow2(k - 1), cmp);
      SameMembers(r, AfterPasses(s, k, cmp), dom);
    }
  }

  lemma {:induction false} SortFromStep<E>(r: seq<E>, w: nat, cmp: (E, E) -> int)
    requires w > 0
    ensures SortFrom(r, w, cmp) == if |r| <= 2 * w then Pass(r, w, cmp) else SortFrom(Pass(r, w, cmp), 2 * w, cmp)
  {}

  lemma {:induction false} AfterOneMore<E>(s: seq<E>, k: nat, cmp: (E, E) -> int)
    ensures AfterPasses(s, k + 1, cmp) == Pass(AfterPasses(s, k, cmp), Pow2(k), cmp) && Pow2(k + 1) == 2 * Pow2(k)
  {}

  lemma {:induction false} PassesFromStep(n: nat, w: nat)
    requires w > 0
    ensures PassesFrom(n, w) == if n <= 2 * w then 1 else 1 + PassesFrom(n, 2 * w)
  {}

  lemma {:induction false} SortFromIsAfterPasses<E>(s: seq<E>, r: seq<E>, k: nat, w: nat, n: nat, cmp: (E, E) -> int)
    requires r == AfterPasses(s, k, cmp) && w == Pow2(k) && |r| == |s| && n == k + PassesFrom(|s|, w)
    ensures SortFrom(r, w, cmp) == AfterPasses(s, n, cmp)
    decreases |s| - w
  {
    SortFromStep(r, w, cmp);
    AfterOneMore(s, k, cmp);
    PassesFromStep(|s|, w);
    if |s| > 2 * w {
      SortFromIsAfterPasses(s, Pass(r, w, cmp), k + 1, 2 * w, n, cmp);
    }
  }

  /** The sort is made up of `Passes(|s|)` passes with run lengths 1, 2, 4, ... */
  lemma {:induction false} SortIsAfterPasses<E>(s: seq<E>, cmp: (E, E) -> int)
    ensures Sort(s, cmp) == AfterPasses(s, Passes(|s|), cmp)
  {
    if |s| > 1 {
      SortFromIsAfterPasses(s, s, 0, 1, Passes(|s|), cmp);
    }
  }

  /** How often a merge calls the comparator. */
  function MergeCost<E>(a: seq<E>, b: seq<E>, cmp: (E, E) -> int): (c: nat)
    decreases |a| + |b|
  {
    if a == [] || b == [] then 0
    else if cmp(a[0], b[0]) <= 0 then 1 + MergeCost(a[1..], b, cmp)
    else 1 + MergeCost(a, b[1..], cmp)
  }

  function PassCost<E>(s: seq<E>, w: nat, cmp: (E, E) -> int): (c: nat)
    requires w > 0
    decreases |s|
  {
    if s == [] then 0
    else MergeCost(Take(s, w), Take(Drop(s, w), w), cmp) + PassCost(Drop(Drop(s, w), w), w, cmp)
  }

  function CostFrom<E>(s: seq<E>, w: nat, cmp: (E, E) -> int): (c: nat)
    requires w > 0
    decreases |s| - w
  {
    PassCost(s, w, cmp) + if |s| <= 2 * w then 0 else CostFrom(Pass(s, w, cmp), 2 * w, cmp)
  }

  function Cost<E>(s: seq<E>, cmp: (E, E) -> int): (c: nat) {
    if |s| <= 1 then 0 else CostFrom(s, 1, cmp)
  }

  lemma {:induction false} MergeCostBound<E>(a: seq<E>, b: seq<E>, cmp: (E, E) -> int)
    requires a != []
    ensures MergeCost(a, b, cmp) <= |a| + |b| - 1
    decreases |a| + |b|
  {
    if b == [] {
    } else if cmp(a[0], b[0]) <= 0 {
      if |a| > 1 { MergeCostBound(a[1..], b, cmp); }
    } else {
      MergeCostBound(a, b[1..], cmp);
    }
  }

  lemma {:induction false} PassCostBound<E>(s: seq<E>, w: nat, cmp: (E, E) -> int)
    requires w > 0
    ensures PassCost(s, w, cmp) <= if s == [] then 0 else |s| - 1
    decreases |s|
  {
    if s != [] {
      MergeCostBound(Take(s, w), Take(Drop(s, w), w), cmp);
      PassCostBound(Drop(Drop(s, w), w), w, cmp);
    }
  }

  lemma {:induction false} OneMoreFactor(k: nat, m: int)
    ensures (1 + k) * m == m + k * m
  {}

  lemma {:induction false} CostFromStep<E>(s: seq<E>, w: nat, cmp: (E, E) -> int)
    requires w > 0 && |s| > 2 * w
    ensures CostFrom(s, w, cmp) == PassCost(s, w, cmp) + CostFrom(Pass(s, w, cmp), 2 * w, cmp)
  {}

  lemma {:induction false} CostFromBound<E>(s: seq<E>, w: nat, cmp: (E, E) -> int, k: nat, m: nat)
    requires w > 0 && k == PassesFrom(|s|, w) && |s| == m + 1
    ensures CostFrom(s, w, cmp) <= k * m
    decreases |s| - w
  {
    PassCostBound(s, w, cmp);
    if |s| > 2 * w {
      CostFromStep(s, w, cmp);
      CostFromBound(Pass(s, w, cmp), 2 * w, cmp, k - 1, m);
      OneMoreFactor(k - 1, m);
    }
  }

  /** At most `|s| - 1` comparisons in each pass. */
  lemma {:induction false} SortCostBound<E>(s: seq<E>, cmp: (E, E) -> int)
    requires s != []
    ensures Cost(s, cmp) <= Passes(|s|) * (|s| - 1)
  {
    if |s| > 1 {
      CostFromBound(s, 1, cmp, Passes(|s|), |s| - 1);
    }
  }
}
