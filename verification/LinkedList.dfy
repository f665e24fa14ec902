/** The doubly linked list of `src/list.c`: nodes whose `prev` and `next` fields are rewritten in place.

  A list is known by its first node.  The sequence of its nodes is a ghost argument
  `s` of every operation, and `Chain(head, s)` says that the pointers realise that sequence. */
module LinkedList {
  import opened Options
  import opened Sequences
  import Sorting

  /** `data` is set once, right after the node is allocated; the list code never assigns it again. */
  class Node<T> {
    var prev: Node?<T>
    var next: Node?<T>
    const data: Pointer<T>

    constructor (data: Pointer<T>)
      ensures prev == null && next == null && this.data == data
    {
      this.prev, this.next, this.data := null, null, data;
    }
  }

  ghost function Head<T>(s: seq<Node<T>>): (n: Node?<T>) {
    if s == [] then null else s[0]
  }

  ghost function Last<T>(s: seq<Node<T>>): (n: Node?<T>) {
    if s == [] then null else s[|s| - 1]
  }

  /** Inside `s`, `next` leads from each node to the following one. */
  ghost predicate NextInside<T>(s: seq<Node<T>>)
    reads s
  {
    forall i {:trigger s[i].next} | 0 <= i < |s| - 1 :: s[i].next == s[i + 1]
  }

  /** Each `prev` leads to the node before, the first one is NULL. */
  ghost predicate PrevInside<T>(s: seq<Node<T>>)
    reads s
  {
    forall i {:trigger s[i].prev} | 0 <= i < |s| :: s[i].prev == if i == 0 then null else s[i - 1]
  }

  /** A NULL-terminated `next` chain through exactly the nodes of `s`. */
  ghost predicate NextChain<T>(head: Node?<T>, s: seq<Node<T>>)
    reads s
  {
    && NoDup(s)
    && head == Head(s)
    && NextInside(s)
    && (s != [] ==> s[|s| - 1].next == null)
  }

  /** A well-formed list: the `next` chain, and the `prev` links that mirror it. */
  ghost predicate Chain<T>(head: Node?<T>, s: seq<Node<T>>)
    reads s
  {
    NextChain(head, s) && PrevInside(s)
  }

  // ---------------------------------------------------------------- sorting

  /** The linked output, the left run and everything after it are three separate sets of nodes out of `nodes`. */
  ghost predicate Separate<T>(out: seq<Node<T>>, a: seq<Node<T>>, b: seq<Node<T>>, nodes: set<Node<T>>) {
    && NoDup(out) && NoDup(a) && NoDup(b) && Disjoint(out, a) && Disjoint(out, b) && Disjoint(a, b)
    && Sorting.Over(out, nodes) && Sorting.Over(a, nodes) && Sorting.Over(b, nodes)
  }

  /** The output under construction: linked in both directions, except that the last `next` is stale. */
  ghost predicate Linked<T>(list: Node?<T>, tail: Node?<T>, out: seq<Node<T>>)
    reads out
  {
    list == Head(out) && tail == Last(out) && NextInside(out) && PrevInside(out)
  }

  /** A merge in progress: `out` is linked, the run `a` starts at `p`, all that follows it starts at `q`. */
  ghost predicate Merging<T>(list: Node?<T>, tail: Node?<T>, p: Node?<T>, q: Node?<T>,
                             out: seq<Node<T>>, a: seq<Node<T>>, b: seq<Node<T>>, nodes: set<Node<T>>)
    reads out, a, b
  {
    && Separate(out, a, b, nodes)
    && Linked(list, tail, out)
    && (a != [] ==> p == a[0]) && NextInside(a)
    && NextChain(q, b)
  }

  /** `e` becomes the last node of the output. */
  method Emit<T>(list: Node?<T>, tail: Node?<T>, e: Node<T>, ghost out: seq<Node<T>>)
    returns (list': Node?<T>, tail': Node?<T>)
    requires Linked(list, tail, out) && NoDup(out) && e !in out
    modifies if tail != null then {tail} else {}, e
    ensures Linked(list', tail', out + [e])
    ensures e.next == old(e.next)
  {
    list' := list;
    if tail != null {
      tail.next := e;
    } else {
      list' := e;
    }
    e.prev := tail;
    tail' := e;
  }

  /** What the inner loop still has to emit after `out`. */
  ghost function Pending<T>(out: seq<Node<T>>, a: seq<Node<T>>, b: seq<Node<T>>, qsize: nat,
                            cmp: (Node<T>, Node<T>) -> int): (r: seq<Node<T>>)
  {
    out + Sorting.Merge(a, Sorting.Take(b, qsize), cmp)
  }

  /** How often it still has to call the comparator. */
  ghost function Calls<T>(a: seq<Node<T>>, b: seq<Node<T>>, qsize: nat, cmp: (Node<T>, Node<T>) -> int): (c: nat) {
    Sorting.MergeCost(a, Sorting.Take(b, qsize), cmp)
  }

  lemma {:induction false} PendingLeft<T>(out: seq<Node<T>>, a: seq<Node<T>>, b: seq<Node<T>>, qsize: nat,
                                          cmp: (Node<T>, Node<T>) -> int)
    requires a != []
    requires qsize == 0 || b == [] || cmp(a[0], b[0]) <= 0
    ensures Pending(out, a, b, qsize, cmp) == Pending(out + [a[0]], a[1..], b, qsize, cmp)
    ensures Calls(a, b, qsize, cmp) == Calls(a[1..], b, qsize, cmp) + if qsize == 0 || b == [] then 0 else 1
  {
    var run := Sorting.Take(b, qsize);
    if run == [] {
      assert a == [a[0]] + a[1..];
    }
    assert Sorting.Merge(a, run, cmp) == [a[0]] + Sorting.Merge(a[1..], run, cmp);
  }

  lemma {:induction false} PendingRight<T>(out: seq<Node<T>>, a: seq<Node<T>>, b: seq<Node<T>>, qsize: nat,
                                           cmp: (Node<T>, Node<T>) -> int)
    requires qsize > 0 && b != []
    requires a == [] || cmp(a[0], b[0]) > 0
    ensures Pending(out, a, b, qsize, cmp) == Pending(out + [b[0]], a, b[1..], qsize - 1, cmp)
    ensures Sorting.Drop(b[1..], qsize - 1) == Sorting.Drop(b, qsize)
    ensures Calls(a, b, qsize, cmp) == Calls(a, b[1..], qsize - 1, cmp) + if a == [] then 0 else 1
  {
    var run := Sorting.Take(b, qsize);
    assert Sorting.Take(b[1..], qsize - 1) == run[1..];
    if a == [] {
      assert run == [run[0]] + run[1..];
    }
    assert Sorting.Merge(a, run, cmp) == [run[0]] + Sorting.Merge(a, run[1..], cmp);
  }

  method TakeLeft<T>(list: Node?<T>, tail: Node?<T>, p: Node<T>, q: Node?<T>, ghost out: seq<Node<T>>,
                     ghost a: seq<Node<T>>, ghost b: seq<Node<T>>, ghost nodes: set<Node<T>>)
    returns (list': Node?<T>, tail': Node?<T>, p': Node?<T>)
    requires Merging(list, tail, p, q, out, a, b, nodes) && a != []
    modifies nodes
    ensures Merging(list', tail', p', q, out + [a[0]], a[1..], b, nodes)
  {
    p' := p.next;
    list', tail' := Emit(list, tail, p, out);
  }

  method TakeRight<T>(list: Node?<T>, tail: Node?<T>, p: Node?<T>, q: Node<T>, ghost out: seq<Node<T>>,
                      ghost a: seq<Node<T>>, ghost b: seq<Node<T>>, ghost nodes: set<Node<T>>)
    returns (list': Node?<T>, tail': Node?<T>, q': Node?<T>)
    requires Merging(list, tail, p, q, out, a, b, nodes)
    modifies nodes
    ensures Merging(list', tail', p, q', out + [b[0]], a, b[1..], nodes)
  {
    q' := q.next;
    list', tail' := Emit(list, tail, q, out);
  }

  /** The choice of the inner loop: does the next node come from `p`?  On a tie it does. */
  method Choose<T>(list: Node?<T>, tail: Node?<T>, p: Node?<T>, psize: nat, q: Node?<T>, qsize: nat,
                   cmp: (Node<T>, Node<T>) -> int, ghost out: seq<Node<T>>, ghost a: seq<Node<T>>,
                   ghost b: seq<Node<T>>, ghost nodes: set<Node<T>>) returns (takeP: bool, ghost called: nat)
    requires Merging(list, tail, p, q, out, a, b, nodes) && psize == |a|
    requires psize > 0 || (qsize > 0 && q != null)
    ensures takeP ==> a != [] && (qsize == 0 || b == [] || cmp(a[0], b[0]) <= 0)
    ensures !takeP ==> qsize > 0 && b != [] && (a == [] || cmp(a[0], b[0]) > 0)
    ensures called == if a == [] || qsize == 0 || b == [] then 0 else 1
  {
    called := 0;
    if psize == 0 {
      takeP := false;
    } else if qsize == 0 || q == null {
      takeP := true;
    } else {
      takeP := cmp(p, q) <= 0;
      called := 1;
    }
  }

  /** One round of the inner loop. */
  method MergeStep<T>(list: Node?<T>, tail: Node?<T>, p: Node?<T>, psize: nat, q: Node?<T>, qsize: nat,
                      cmp: (Node<T>, Node<T>) -> int, ghost out: seq<Node<T>>, ghost a: seq<Node<T>>,
                      ghost b: seq<Node<T>>, ghost nodes: set<Node<T>>, ghost calls: nat)
    returns (list': Node?<T>, tail': Node?<T>, p': Node?<T>, psize': nat, q': Node?<T>, qsize': nat,
             ghost out': seq<Node<T>>, ghost a': seq<Node<T>>, ghost b': seq<Node<T>>, ghost calls': nat)
    requires Merging(list, tail, p, q, out, a, b, nodes) && psize == |a|
    requires psize > 0 || (qsize > 0 && q != null)
    modifies nodes
    ensures Merging(list', tail', p', q', out', a', b', nodes) && psize' == |a'|
    ensures psize' + |b'| < psize + |b|
    ensures Sorting.Drop(b', qsize') == Sorting.Drop(b, qsize)
    ensures Pending(out', a', b', qsize', cmp) == Pending(out, a, b, qsize, cmp)
    ensures calls' + Calls(a', b', qsize', cmp) == calls + Calls(a, b, qsize, cmp)
  {
    hide Pending, Calls, Separate, Linked, NextInside, Sorting.Drop, Sorting.Take;
    list', tail', p', psize', q', qsize' := list, tail, p, psize, q, qsize;
    out', a', b' := out, a, b;
    var takeP;
    ghost var called;
    takeP, called := Choose(list, tail, p, psize, q, qsize, cmp, out, a, b, nodes);
    calls' := calls + called;
    if takeP {
      PendingLeft(out, a, b, qsize, cmp);
      list', tail', p' := TakeLeft(list, tail, p, q, out, a, b, nodes);
      out', a', psize' := out + [a[0]], a[1..], psize - 1;
    } else {
      PendingRight(out, a, b, qsize, cmp);
      list', tail', q' := TakeRight(list, tail, p, q, out, a, b, nodes);
      out', b', qsize' := out + [b[0]], b[1..], qsize - 1;
    }
  }

  /** The inner loop: merge the run of `psize0` nodes at `p0` with the at most `qsize0` nodes at `q0`. */
  method MergeRuns<T>(list0: Node?<T>, tail0: Node?<T>, p0: Node<T>, psize0: nat, q0: Node?<T>, qsize0: nat,
                      cmp: (Node<T>, Node<T>) -> int, ghost out0: seq<Node<T>>, ghost a0: seq<Node<T>>,
                      ghost b0: seq<Node<T>>, ghost nodes: set<Node<T>>)
    returns (list: Node?<T>, tail: Node?<T>, q: Node?<T>, ghost calls: nat)
    requires Merging(list0, tail0, p0, q0, out0, a0, b0, nodes) && psize0 == |a0|
    modifies nodes
    ensures Merging(list, tail, null, q, Pending(out0, a0, b0, qsize0, cmp), [], Sorting.Drop(b0, qsize0), nodes)
    ensures calls == Calls(a0, b0, qsize0, cmp)
  {
    ghost var goal, cost := Pending(out0, a0, b0, qsize0, cmp), Calls(a0, b0, qsize0, cmp);
    ghost var rest := Sorting.Drop(b0, qsize0);
    list, tail, q := list0, tail0, q0;
    var p: Node?<T> := p0;
    var psize, qsize := psize0, qsize0;
    calls := 0;
    ghost var out, a, b := out0, a0, b0;
    while psize > 0 || (qsize > 0 && q != null)
      invariant Merging(list, tail, p, q, out, a, b, nodes) && psize == |a|
      invariant Sorting.Drop(b, qsize) == rest
      invariant Pending(out, a, b, qsize, cmp) == goal
      invariant calls + Calls(a, b, qsize, cmp) == cost
      decreases psize + |b|
    {
      list, tail, p, psize, q, qsize, out, a, b, calls :=
        MergeStep(list, tail, p, psize, q, qsize, cmp, out, a, b, nodes, calls);
    }
    assert a == [] && Sorting.Take(b, qsize) == [];
    assert out + [] == out;
  }

  /** The splitting loop: step over at most `w` nodes. */
  method Split<T>(p: Node<T>, w: nat, ghost s: seq<Node<T>>) returns (psize: nat, q: Node?<T>)
    requires NextChain(p, s) && w > 0
    ensures psize == |Sorting.Take(s, w)| && NextChain(q, Sorting.Drop(s, w))
  {
    var i := 0;
    psize, q := 0, p;
    while i < w
      invariant i <= w && psize == i && i < |s| && q == s[i]
    {
      psize := psize + 1;
      q := q.next;
      if q == null { break; }
      i := i + 1;
    }
  }

  lemma {:induction false} PassStep<E>(out: seq<E>, s: seq<E>, w: nat, cmp: (E, E) -> int)
    requires w > 0 && s != []
    ensures var t := Sorting.Drop(s, w);
            out + Sorting.Pass(s, w, cmp)
            == (out + Sorting.Merge(Sorting.Take(s, w), Sorting.Take(t, w), cmp))
               + Sorting.Pass(Sorting.Drop(t, w), w, cmp)
  {
    var t := Sorting.Drop(s, w);
    var m, r := Sorting.Merge(Sorting.Take(s, w), Sorting.Take(t, w), cmp), Sorting.Pass(Sorting.Drop(t, w), w, cmp);
    assert Sorting.Pass(s, w, cmp) == m + r;
    Sorting.Assoc(out, m, r);
  }

  lemma {:induction false} PassCostStep<E>(s: seq<E>, w: nat, cmp: (E, E) -> int)
    requires w > 0 && s != []
    ensures var t := Sorting.Drop(s, w);
            Sorting.PassCost(s, w, cmp)
            == Sorting.MergeCost(Sorting.Take(s, w), Sorting.Take(t, w), cmp)
               + Sorting.PassCost(Sorting.Drop(t, w), w, cmp)
  {}

  /** How many merges a pass over `n` nodes makes. */
  ghost function Merges(n: nat, w: nat): (m: nat)
    requires w > 0
    ensures m <= 1 <==> n <= 2 * w
    ensures m == 0 <==> n == 0
  {
    if n == 0 then 0 else 1 + Merges(if n <= 2 * w then 0 else n - 2 * w, w)
  }

  lemma {:induction false} RestLength<E>(s: seq<E>, w: nat)
    requires w > 0 && s != []
    ensures |Sorting.Drop(Sorting.Drop(s, w), w)| < |s|
    ensures Merges(|s|, w) == 1 + Merges(|Sorting.Drop(Sorting.Drop(s, w), w)|, w)
  {}

  lemma {:induction false} SplitRun<T>(list: Node?<T>, tail: Node?<T>, p: Node<T>, q: Node?<T>, w: nat,
                    out: seq<Node<T>>, rem: seq<Node<T>>, nodes: set<Node<T>>)
    requires Merging(list, tail, null, p, out, [], rem, nodes) && w > 0
    requires NextChain(q, Sorting.Drop(rem, w))
    ensures Merging(list, tail, p, q, out, Sorting.Take(rem, w), Sorting.Drop(rem, w), nodes)
  {}

  /** One merge of a pass: the two runs of `w` nodes at `p`. */
  method MergePair<T>(list: Node?<T>, tail: Node?<T>, p: Node<T>, w: nat, cmp: (Node<T>, Node<T>) -> int,
                      ghost out: seq<Node<T>>, ghost rem: seq<Node<T>>, ghost nodes: set<Node<T>>, ghost calls: nat)
    returns (list': Node?<T>, tail': Node?<T>, p': Node?<T>, ghost out': seq<Node<T>>, ghost rem': seq<Node<T>>,
             ghost calls': nat)
    requires Merging(list, tail, null, p, out, [], rem, nodes) && w > 0
    modifies nodes
    ensures Merging(list', tail', null, p', out', [], rem', nodes)
    ensures |rem'| < |rem| && Merges(|rem|, w) == 1 + Merges(|rem'|, w)
    ensures out' + Sorting.Pass(rem', w, cmp) == out + Sorting.Pass(rem, w, cmp)
    ensures calls' + Sorting.PassCost(rem', w, cmp) == calls + Sorting.PassCost(rem, w, cmp)
  {
    ghost var a, b := Sorting.Take(rem, w), Sorting.Drop(rem, w);
    PassStep(out, rem, w, cmp);
    PassCostStep(rem, w, cmp);
    RestLength(rem, w);
    var psize, q := Split(p, w, rem);
    SplitRun(list, tail, p, q, w, out, rem, nodes);
    ghost var c;
    list', tail', p', c := MergeRuns(list, tail, p, psize, q, w, cmp, out, a, b, nodes);
    out', rem', calls' := Pending(out, a, b, w, cmp), Sorting.Drop(b, w), calls + c;
  }

  /** The end of a pass: the last `next` is cut off. */
  method Terminate<T>(list: Node<T>, tail: Node<T>, ghost out: seq<Node<T>>, ghost nodes: set<Node<T>>)
    requires Merging(list, tail, null, null, out, [], [], nodes)
    modifies nodes
    ensures Chain(list, out) && Sorting.Over(out, nodes)
  {
    tail.next := null;
  }

  /** The middle loop: walk `p` over the list, one pair of runs at a time. */
  method MergePairs<T>(head: Node<T>, w: nat, cmp: (Node<T>, Node<T>) -> int, ghost s: seq<Node<T>>,
                       ghost nodes: set<Node<T>>)
    returns (list: Node?<T>, tail: Node?<T>, nmerges: nat, ghost out: seq<Node<T>>, ghost calls: nat)
    requires NextChain(head, s) && Sorting.Over(s, nodes) && w > 0
    modifies nodes
    ensures Merging(list, tail, null, null, out, [], [], nodes) && out == Sorting.Pass(s, w, cmp)
    ensures nmerges == Merges(|s|, w) && calls == Sorting.PassCost(s, w, cmp)
  {
    var p: Node?<T> := head;
    list, tail := null, null;
    nmerges, calls := 0, 0;
    ghost var rem := s;
    out := [];
    ghost var goal, cost, merges := Sorting.Pass(s, w, cmp), Sorting.PassCost(s, w, cmp), Merges(|s|, w);
    while p != null
      invariant Merging(list, tail, null, p, out, [], rem, nodes)
      invariant out + Sorting.Pass(rem, w, cmp) == goal
      invariant calls + Sorting.PassCost(rem, w, cmp) == cost
      invariant nmerges + Merges(|rem|, w) == merges
      decreases |rem|
    {
      nmerges := nmerges + 1;
      list, tail, p, out, rem, calls := MergePair(list, tail, p, w, cmp, out, rem, nodes, calls);
    }
    assert rem == [] && out + [] == out;
  }

  /** One pass with run length `w`. */
  method MergePass<T>(head: Node<T>, w: nat, cmp: (Node<T>, Node<T>) -> int, ghost s: seq<Node<T>>,
                      ghost nodes: set<Node<T>>)
    returns (list: Node<T>, nmerges: nat, ghost calls: nat)
    requires NextChain(head, s) && Sorting.Over(s, nodes) && w > 0
    modifies nodes
    ensures Chain(list, Sorting.Pass(s, w, cmp)) && Sorting.Over(Sorting.Pass(s, w, cmp), nodes)
    ensures nmerges <= 1 <==> |s| <= 2 * w
    ensures calls == Sorting.PassCost(s, w, cmp)
  {
    var first, tail;
    ghost var out;
    first, tail, nmerges, out, calls := MergePairs(head, w, cmp, s, nodes);
    list := first;
    Terminate(list, tail, out, nodes);
  }

  lemma {:induction false} SortStep<E>(r: seq<E>, w: nat, cmp: (E, E) -> int)
    requires w > 0
    ensures |r| > 2 * w ==>
      && Sorting.SortFrom(r, w, cmp) == Sorting.SortFrom(Sorting.Pass(r, w, cmp), 2 * w, cmp)
      && Sorting.PassesFrom(|r|, w) == 1 + Sorting.PassesFrom(|r|, 2 * w)
      && Sorting.CostFrom(r, w, cmp)
         == Sorting.PassCost(r, w, cmp) + Sorting.CostFrom(Sorting.Pass(r, w, cmp), 2 * w, cmp)
    ensures |r| <= 2 * w ==>
      && Sorting.SortFrom(r, w, cmp) == Sorting.Pass(r, w, cmp)
      && Sorting.PassesFrom(|r|, w) == 1
      && Sorting.CostFrom(r, w, cmp) == Sorting.PassCost(r, w, cmp)
  {}

  /** The outer loop of `ta_list_sort`: passes with doubling run length until one needs a single merge. */
  method SortPasses<T>(head: Node<T>, cmp: (Node<T>, Node<T>) -> int, ghost s: seq<Node<T>>, ghost nodes: set<Node<T>>)
    returns (list: Node<T>, ghost r: seq<Node<T>>, ghost passes: nat, ghost calls: nat)
    requires Chain(head, s) && Sorting.Over(s, nodes)
    modifies nodes
    ensures Chain(list, r) && r == Sorting.SortFrom(s, 1, cmp)
    ensures passes == Sorting.PassesFrom(|s|, 1) && calls == Sorting.CostFrom(s, 1, cmp)
  {
    list, r, passes, calls := head, s, 0, 0;
    ghost var goal, total, cost := Sorting.SortFrom(s, 1, cmp), Sorting.PassesFrom(|s|, 1), Sorting.CostFrom(s, 1, cmp);
    var splitPoint: nat := 1;
    while true
      invariant splitPoint >= 1
      invariant Chain(list, r) && Sorting.Over(r, nodes)
      invariant Sorting.SortFrom(r, splitPoint, cmp) == goal
      invariant passes + Sorting.PassesFrom(|r|, splitPoint) == total
      invariant calls + Sorting.CostFrom(r, splitPoint, cmp) == cost
      decreases |r| - splitPoint
    {
      SortStep(r, splitPoint, cmp);
      var nmerges;
      ghost var c;
      list, nmerges, c := MergePass(list, splitPoint, cmp, r, nodes);
      r, passes, calls := Sorting.Pass(r, splitPoint, cmp), passes + 1, calls + c;
      if nmerges <= 1 {
        return;
      }
      splitPoint := 2 * splitPoint;
    }
  }

  /** `ta_list_sort`. */
  method Sort<T>(list0: Node?<T>, cmp: (Node<T>, Node<T>) -> int, ghost s: seq<Node<T>>)
    returns (list: Node?<T>, ghost passes: nat, ghost calls: nat)
    requires Chain(list0, s)
    modifies s
    ensures Chain(list, Sorting.Sort(s, cmp))
    ensures passes == Sorting.Passes(|s|) && calls == Sorting.Cost(s, cmp)
  {
    list, passes, calls := list0, 0, 0;
    if list == null || list.next == null {
      return;
    }
    ghost var r;
    list, r, passes, calls := SortPasses(list, cmp, s, set n | n in s);
  }

  // ---------------------------------------------------------------- editing

  /** `list` points at node `i` of a well-formed list, or both are empty. */
  ghost predicate At<T>(list: Node?<T>, s: seq<Node<T>>, i: nat)
    reads s
  {
    Chain(Head(s), s) && if s == [] then list == null else i < |s| && list == s[i]
  }

  /** `ta_list_first`, from any node of the list. */
  method First<T>(list: Node?<T>, ghost s: seq<Node<T>>, ghost i: nat) returns (first: Node?<T>)
    requires At(list, s, i)
    ensures first == Head(s)
  {
    var node := list;
    first := null;
    ghost var k: int := if s == [] then -1 else i;
    while node != null
      invariant -1 <= k < |s|
      invariant node == if k == -1 then null else s[k]
      invariant first == if k + 1 < |s| && first != null then s[k + 1] else null
      invariant first == null ==> node != null || s == []
      decreases k
    {
      first := node;
      node := node.prev;
      k := k - 1;
    }
  }

  /** `ta_list_last`, from any node of the list. */
  method LastNode<T>(list: Node?<T>, ghost s: seq<Node<T>>, ghost i: nat) returns (last: Node?<T>)
    requires At(list, s, i)
    ensures last == Last(s)
  {
    var node := list;
    last := null;
    ghost var k: nat := if s == [] then 0 else i;
    while node != null
      invariant k <= |s|
      invariant node == if k == |s| then null else s[k]
      invariant last == if k > 0 && last != null then s[k - 1] else null
      invariant last == null ==> node != null || s == []
      decreases |s| - k
    {
      last := node;
      node := node.next;
      k := k + 1;
    }
  }

  /** `ta_list_append`: NULL data is not stored. */
  method Append<T>(list: Node?<T>, data: Pointer<T>, ghost s: seq<Node<T>>, ghost i: nat)
    returns (list': Node?<T>, ghost s': seq<Node<T>>)
    requires At(list, s, i)
    modifies s
    ensures Chain(Head(s'), s')
    ensures data.Null? ==> s' == s
    ensures data.Ptr? ==> |s'| == |s| + 1 && s' == s + [s'[|s|]] && fresh(s'[|s|]) && s'[|s|].data == data
    ensures list' == if list == null then Head(s') else list
  {
    list', s' := list, s;
    if data.Null? {
      return;
    }
    var node := new Node(data);
    node.next := null;
    s' := s + [node];
    if list != null {
      var last := LastNode(list, s, i);
      last.next := node;
      node.prev := last;
    } else {
      node.prev := null;
      list' := node;
    }
  }

  /** The two writes that join two lists. */
  method Join<T>(last: Node<T>, otherlist: Node<T>, ghost s: seq<Node<T>>, ghost t: seq<Node<T>>)
    requires Chain(Head(s), s) && last == Last(s) && Chain(otherlist, t) && Disjoint(s, t)
    modifies s, t
    ensures Chain(Head(s), s + t)
  {
    last.next := otherlist;
    otherlist.prev := last;
    ghost var r := s + t;
    assert NoDup(r);
    forall i | 0 <= i < |r| - 1 ensures r[i].next == r[i + 1] {
      assert i < |s| - 1 ==> s[i].next == s[i + 1];
      assert i >= |s| ==> t[i - |s|].next == t[i - |s| + 1];
    }
    forall i | 0 <= i < |r| ensures r[i].prev == if i == 0 then null else r[i - 1] {
      assert i < |s| ==> s[i].prev == if i == 0 then null else s[i - 1];
      assert i > |s| ==> t[i - |s|].prev == t[i - |s| - 1];
    }
    assert t[|t| - 1].next == null;
  }

  method ClearPrev<T>(list: Node<T>, ghost s: seq<Node<T>>)
    requires Chain(list, s)
    modifies s
    ensures Chain(list, s)
  {
    list.prev := null;
  }

  /** `ta_list_extend`. */
  method Extend<T>(list: Node?<T>, otherlist: Node?<T>, ghost s: seq<Node<T>>, ghost i: nat, ghost t: seq<Node<T>>)
    returns (list': Node?<T>)
    requires At(list, s, i) && Chain(otherlist, t) && Disjoint(s, t)
    modifies s, t
    ensures Chain(Head(s + t), s + t)
    ensures list' == if list == null then otherlist else list
  {
    list' := list;
    assert s + [] == s && [] + t == t;
    hide NextInside, PrevInside, NoDup, Disjoint;
    if otherlist != null {
      var last := LastNode(list, s, i);
      if last != null {
        Join(last, otherlist, s, t);
      } else {
        list' := otherlist;
        ClearPrev(otherlist, t);
      }
    }
  }

  /** `newnode` is linked in before node `k`, the last part of the loop of `ta_list_insert`. */
  method LinkBefore<T>(node: Node<T>, newnode: Node<T>, ghost s: seq<Node<T>>, ghost k: nat)
    requires Chain(Head(s), s) && 0 < k < |s| && node == s[k] && newnode !in s
    modifies s, newnode
    ensures Chain(Head(s), With(s, k, newnode))
  {
    var prev := node.prev;
    prev.next := newnode;
    newnode.next := node;
    newnode.prev := prev;
    node.prev := newnode;
    ghost var r := With(s, k, newnode);
    assert forall i | 0 <= i < k :: r[i] == s[i];
    assert forall i | k < i < |r| :: r[i] == s[i - 1];
    assert NoDup(r);
    forall i | 0 <= i < |r| - 1 ensures r[i].next == r[i + 1] {
      assert i < k - 1 ==> s[i].next == s[i + 1];
      assert i > k ==> s[i - 1].next == s[i];
    }
    forall i | 0 <= i < |r| ensures r[i].prev == if i == 0 then null else r[i - 1] {
      assert i > k + 1 ==> s[i - 1].prev == s[i - 2];
    }
  }

  /** `ta_list_insert`: a position past the end, or negative, appends, and appending drops NULL data. */
  method Insert<T>(list: Node?<T>, data: Pointer<T>, position: int, ghost s: seq<Node<T>>)
    returns (list': Node?<T>, ghost s': seq<Node<T>>)
    requires Chain(list, s)
    modifies s
    ensures Chain(list', s')
    ensures 0 <= position < |s| ==>
              && |s'| == |s| + 1 && s' == s[..position] + [s'[position]] + s[position..]
              && fresh(s'[position]) && s'[position].data == data
    ensures (position < 0 || position >= |s|) && data.Null? && s != [] ==> s' == s
    ensures (position < 0 || position >= |s|) && (data.Ptr? || s == []) ==>
              |s'| == |s| + 1 && s' == s + [s'[|s|]] && fresh(s'[|s|]) && s'[|s|].data == data
  {
    var newnode := new Node(data);
    list', s' := list, s;
    if list == null {
      list', s' := newnode, [newnode];
      return;
    }
    if position == 0 {
      list.prev := newnode;
      newnode.next := list;
      list', s' := newnode, With(s, 0, newnode);
      return;
    }
    var node, counter := list, 0;
    while node != null
      invariant 0 <= counter <= |s| && Chain(list, s)
      invariant node == if counter < |s| then s[counter] else null
      invariant !(0 <= position < counter)
      decreases |s| - counter
    {
      if counter == position {
        LinkBefore(node, newnode, s, counter);
        s' := With(s, counter, newnode);
        return;
      }
      node, counter := node.next, counter + 1;
    }
    list', s' := Append(list, data, s, 0);
  }

  /** The index of the first node that holds `data`, or `|s|`. */
  function IndexOf<T(==)>(s: seq<Node<T>>, data: Pointer<T>): (k: nat)
    ensures k <= |s|
    ensures forall i | 0 <= i < k :: s[i].data != data
    ensures k < |s| ==> s[k].data == data
  {
    if s == [] || s[0].data == data then 0 else 1 + IndexOf(s[1..], data)
  }

  /** All links are those of the chain `s`, except that those of its neighbours skip node `k`. */
  ghost predicate Skips<T>(s: seq<Node<T>>, k: nat)
    reads s
  {
    && (forall i {:trigger s[i].next} | 0 <= i < |s| ::
          var j := if i + 1 == k then k + 1 else i + 1; s[i].next == if j < |s| then s[j] else null)
    && (forall i {:trigger s[i].prev} | 0 <= i < |s| ::
          var j := if i == k + 1 then k - 1 else i - 1; s[i].prev == if j >= 0 then s[j] else null)
  }

  lemma {:induction false} SkippingChain<T>(s: seq<Node<T>>, k: nat)
    requires NoDup(s) && k < |s| && Skips(s, k)
    ensures Chain(Head(Without(s, k)), Without(s, k))
  {
    var r := Without(s, k);
    assert NoDup(r);
    forall i | 0 <= i < |r| - 1 ensures r[i].next == r[i + 1] {
      var j := if i < k then i else i + 1;
      assert r[i] == s[j];
    }
    forall i | 0 <= i < |r| ensures r[i].prev == if i == 0 then null else r[i - 1] {
      var j := if i < k then i else i + 1;
      assert r[i] == s[j];
    }
    if r != [] {
      var j := if |r| - 1 < k then |r| - 1 else |r|;
      assert r[|r| - 1] == s[j];
    }
  }

  /** The writes of `ta_list_remove` to the neighbours of the node. */
  method Rewire<T>(list: Node<T>, node: Node<T>, ghost s: seq<Node<T>>, ghost k: nat) returns (list': Node?<T>)
    requires Chain(list, s) && k < |s| && node == s[k]
    modifies s
    ensures list' == if k > 0 then list else if |s| > 1 then s[1] else null
    ensures Skips(s, k)
    ensures node.next == old(node.next) && node.prev == old(node.prev)
  {
    list' := list;
    if node.prev != null {
      node.prev.next := node.next;
    }
    if node.next != null {
      node.next.prev := node.prev;
    }
    if node == list {
      list' := list.next;
      if list' != null {
        list'.prev := null;
      }
    }
  }

  /** The unlinking part of `ta_list_remove`; the node keeps its own links. */
  method Unlink<T>(list: Node<T>, node: Node<T>, ghost s: seq<Node<T>>, ghost k: nat) returns (list': Node?<T>)
    requires Chain(list, s) && k < |s| && node == s[k]
    modifies s
    ensures Chain(list', Without(s, k))
    ensures node.next == old(node.next) && node.prev == old(node.prev)
  {
    list' := Rewire(list, node, s, k);
    SkippingChain(s, k);
  }

  /** The search of `ta_list_remove`. */
  method Find<T(==)>(list: Node?<T>, data: Pointer<T>, ghost s: seq<Node<T>>) returns (node: Node?<T>)
    requires Chain(list, s)
    ensures var k := IndexOf(s, data); node == if k == |s| then null else s[k]
  {
    node := list;
    ghost var k := 0;
    while node != null && node.data != data
      invariant 0 <= k <= IndexOf(s, data)
      invariant node == if k < |s| then s[k] else null
      decreases |s| - k
    {
      node, k := node.next, k + 1;
    }
  }

  /** `ta_list_remove`: only the first node that holds `data` goes; it keeps its own links. */
  method Remove<T(==)>(list: Node?<T>, data: Pointer<T>, ghost s: seq<Node<T>>)
    returns (list': Node?<T>, removed: Node?<T>)
    requires Chain(list, s)
    modifies s
    ensures Chain(list', Without(s, IndexOf(s, data)))
    ensures removed == if IndexOf(s, data) == |s| then null else s[IndexOf(s, data)]
    ensures removed != null ==>
              && removed.next == old(s[IndexOf(s, data)].next)
              && removed.prev == old(s[IndexOf(s, data)].prev)
  {
    removed := Find(list, data, s);
    list' := list;
    if removed != null {
      list' := Unlink(list, removed, s, IndexOf(s, data));
    }
  }

  /** `ta_list_pop`, from any node of the list: the last node goes, and comes out unlinked. */
  method Pop<T>(list: Node?<T>, ghost s: seq<Node<T>>, ghost i: nat) returns (list': Node?<T>, popped: Node?<T>)
    requires At(list, s, i)
    modifies s
    ensures var r := if s == [] then [] else s[..|s| - 1]; Chain(Head(r), r)
    ensures popped == Last(s) && (popped != null ==> popped.prev == null && popped.next == null)
    ensures list' == if list == popped then null else list
  {
    popped := list;
    list' := list;
    if popped == null {
      return;
    }
    popped := LastNode(list, s, i);
    if popped.prev != null {
      var prev := popped.prev;
      prev.next := null;
      popped.prev := null;
    }
    if popped == list {
      list' := null;
    }
  }

  ghost function Reversed<E>(s: seq<E>): (r: seq<E>)
    ensures |r| == |s|
    ensures forall i | 0 <= i < |s| :: r[i] == s[|s| - 1 - i]
  {
    if s == [] then [] else Reversed(s[1..]) + [s[0]]
  }

  lemma {:induction false} ReversedTwice<E>(s: seq<E>)
    ensures Reversed(Reversed(s)) == s
  {}

  lemma {:induction false} ReversedNoDup<E>(s: seq<E>)
    requires NoDup(s)
    ensures NoDup(Reversed(s)) && forall x | x in Reversed(s) :: x in s
  {
    assert forall i | 0 <= i < |s| :: Reversed(s)[i] == s[|s| - 1 - i];
  }

  /** Links that all point the other way are the reversed list. */
  lemma {:induction false} ReversedChain<T>(s: seq<Node<T>>)
    requires NoDup(s)
    requires forall i {:trigger s[i].next} | 0 <= i < |s| :: s[i].next == if i == 0 then null else s[i - 1]
    requires forall i {:trigger s[i].prev} | 0 <= i < |s| :: s[i].prev == if i + 1 < |s| then s[i + 1] else null
    ensures Chain(if s == [] then null else s[|s| - 1], Reversed(s))
  {
    var r := Reversed(s);
    ReversedNoDup(s);
    hide NoDup;
    forall i | 0 <= i < |r| ensures r[i].next == if i + 1 < |r| then r[i + 1] else null {
      assert r[i] == s[|s| - 1 - i];
    }
    forall i | 0 <= i < |r| ensures r[i].prev == if i == 0 then null else r[i - 1] {
      assert r[i] == s[|s| - 1 - i];
    }
  }

  /** `ta_list_reverse`. */
  method Reverse<T>(list0: Node?<T>, ghost s: seq<Node<T>>) returns (node: Node?<T>)
    requires Chain(list0, s)
    modifies s
    ensures Chain(node, Reversed(s))
  {
    var list := list0;
    node := null;
    ghost var k := 0;
    while list != null
      invariant 0 <= k <= |s|
      invariant list == if k < |s| then s[k] else null
      invariant node == if k > 0 then s[k - 1] else null
      invariant forall i {:trigger s[i].next} | 0 <= i < k :: s[i].next == if i == 0 then null else s[i - 1]
      invariant forall i {:trigger s[i].prev} | 0 <= i < k :: s[i].prev == if i + 1 < |s| then s[i + 1] else null
      invariant forall i {:trigger s[i].next} | k <= i < |s| :: s[i].next == if i + 1 < |s| then s[i + 1] else null
      invariant forall i {:trigger s[i].prev} | k <= i < |s| :: s[i].prev == if i == 0 then null else s[i - 1]
      decreases |s| - k
    {
      node := list;
      list := node.next;
      node.next := node.prev;
      node.prev := list;
      k := k + 1;
    }
    ReversedChain(s);
  }
}
