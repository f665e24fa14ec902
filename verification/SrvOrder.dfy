/** The ordering part of `ta_srv_query_domain` in `src/srv.c`: the list of targets is sorted, then drained
  one selected node at a time into the chain `out`, of which only the `next` links are maintained. */
module SrvOrder {
  import opened LinkedList
  import opened Sequences
  import opened Srv
  import Sorting

  /** The answer section as read: every node holds a target, each target once. */
  ghost predicate DistinctTargets(s: seq<TargetNode>) {
    && (forall i {:trigger s[i].data} | 0 <= i < |s| :: s[i].data.Ptr?)
    && (forall i, j {:trigger s[i].data, s[j].data} | 0 <= i < j < |s| :: s[i].data != s[j].data)
  }

  lemma {:induction false} DistinctIndex(s: seq<TargetNode>, k: nat)
    requires DistinctTargets(s) && k < |s|
    ensures IndexOf(s, s[k].data) == k
  {
    assert forall i | 0 <= i < |s| && i != k :: s[i].data != s[k].data;
  }

  lemma {:induction false} DistinctAfterSort(s: seq<TargetNode>, r: seq<TargetNode>)
    requires DistinctTargets(s) && multiset(s) == multiset(r) && NoDup(r)
    ensures DistinctTargets(r)
  {
    forall i | 0 <= i < |r| ensures r[i] in s {
      assert r[i] in multiset(r);
    }
  }

  /** The chain `out` so far, apart from what is left; its last `next` is stale until nothing is left. */
  ghost predicate Drained(out: Node?<Target>, tail: Node?<Target>, done: seq<TargetNode>, rem: seq<TargetNode>)
    reads done
  {
    && NoDup(done) && Disjoint(done, rem)
    && out == Head(done) && tail == Last(done) && NextInside(done)
    && (rem == [] && done != [] ==> done[|done| - 1].next == null)
  }

  /** The first inner loop: sum the weights of the targets that share the first priority, and count them. */
  method MeasureGroup(targets: TargetNode, ghost s: seq<TargetNode>) returns (sum: nat, num: nat)
    requires Chain(targets, s)
    ensures num == GroupSize(s, Priority(s[0])) && sum == Sum(s[..num])
  {
    var priority := Priority(targets);
    var t: Node?<Target> := targets;
    sum, num := 0, 0;
    while t != null && Priority(t) == priority
      invariant num <= |s| && t == if num < |s| then s[num] else null
      invariant forall i | 0 <= i < num :: Priority(s[i]) == priority
      invariant sum == Sum(s[..num])
      decreases |s| - num
    {
      assert s[..num + 1] == s[..num] + [s[num]];
      SumConcat(s[..num], [s[num]]);
      sum, num, t := sum + Weight(t), num + 1, t.next;
    }
  }

  /** The second inner loop: find the winner of a draw. */
  method Scan(targets: TargetNode, draw: nat, ghost s: seq<TargetNode>, ghost num: nat) returns (t: TargetNode)
    requires Chain(targets, s) && 0 < num <= |s| && draw <= Sum(s[..num])
    ensures Pick(s, draw) < num && t == s[Pick(s, draw)]
  {
    var randint: nat := draw;
    t := targets;
    ghost var k := 0;
    PickStaysInGroup(s, num, draw);
    while Weight(t) < randint
      invariant k < num && t == s[k]
      invariant Pick(s, draw) == k + Pick(s[k..], randint)
      decreases num - k
    {
      assert s[k..][1..] == s[k + 1..];
      randint := randint - Weight(t);
      t := t.next;
      k := k + 1;
    }
  }

  lemma {:induction false} MovedApart(done: seq<TargetNode>, s: seq<TargetNode>, k: nat)
    requires NoDup(done) && NoDup(s) && Disjoint(done, s) && k < |s|
    ensures s[k] !in done && NoDup(done + [s[k]]) && Disjoint(done + [s[k]], Without(s, k))
    ensures forall x | x in Without(s, k) :: x !in done && x != s[k]
  {}

  /** The winner is linked in behind the output. */
  method LinkOut(out: Node?<Target>, tail: Node?<Target>, t: TargetNode, ghost done: seq<TargetNode>)
    returns (out': TargetNode)
    requires NoDup(done) && t !in done && out == Head(done) && tail == Last(done) && NextInside(done)
    modifies done
    ensures out' == Head(done + [t]) && NextInside(done + [t])
  {
    if out == null {
      out' := t;
    } else {
      out' := out;
      tail.next := t;
    }
  }

  /** A winner leaves the list of targets and becomes the last of the output. */
  method Move(targets: TargetNode, out: Node?<Target>, tail: Node?<Target>, t: TargetNode,
              ghost done: seq<TargetNode>, ghost s: seq<TargetNode>, ghost k: nat)
    returns (targets': Node?<Target>, out': TargetNode)
    requires Chain(targets, s) && DistinctTargets(s) && k < |s| && t == s[k]
    requires Drained(out, tail, done, s)
    modifies s, done
    ensures Chain(targets', Without(s, k))
    ensures Drained(out', t, done + [t], Without(s, k))
  {
    DistinctIndex(s, k);
    MovedApart(done, s, k);
    assert |s| == 1 ==> t.next == null;
    assert forall x | x in done :: x !in s;
    hide NoDup, Disjoint, Chain, NextInside, DistinctTargets;
    var removed;
    targets', removed := Remove(targets, t.data, s);
    out' := LinkOut(out, tail, t, done);
  }

  /** What a run in progress still has to put out. */
  ghost function ToCome(rem: seq<TargetNode>, num: nat, step: nat, rand: Source): (w: seq<TargetNode>)
    requires num <= |rem| && InRange(rand)
  {
    Winners(Select(rem, num, step, rand))
  }

  lemma {:induction false} ToComeOpens(rem: seq<TargetNode>, step: nat, rand: Source)
    requires rem != [] && InRange(rand)
    ensures ToCome(rem, 0, step, rand) == ToCome(rem, GroupSize(rem, Priority(rem[0])), step, rand)
  {}

  lemma {:induction false} ToComeStep(rem: seq<TargetNode>, num: nat, step: nat, rand: Source, k: nat)
    requires 0 < num <= |rem| && InRange(rand) && k == Pick(rem, rand(step, Sum(rem[..num]))) && k < num
    ensures ToCome(rem, num, step, rand) == [rem[k]] + ToCome(Without(rem, k), num - 1, step + 1, rand)
  {
    var run := Select(rem, num, step, rand);
    assert run.rest == Select(Without(rem, k), num - 1, step + 1, rand) && run.sel.winner == rem[k];
  }

  lemma {:induction false} SumWithout(s: seq<TargetNode>, num: nat, k: nat)
    requires k < num <= |s|
    ensures Sum(Without(s, k)[..num - 1]) == Sum(s[..num]) - Weight(s[k])
  {
    var a, b := s[..k], s[k + 1..num];
    assert s[..num] == a + ([s[k]] + b) && Without(s, k)[..num - 1] == a + b;
    SumConcat(a, [s[k]] + b);
    SumConcat([s[k]], b);
    SumConcat(a, b);
  }

  /** The state between two selections. */
  ghost predicate Draining(targets: Node?<Target>, out: Node?<Target>, tail: Node?<Target>,
                           done: seq<TargetNode>, rem: seq<TargetNode>, nodes: set<TargetNode>)
    reads done, rem
  {
    && Chain(targets, rem) && DistinctTargets(rem) && Drained(out, tail, done, rem)
    && Sorting.Over(rem, nodes) && Sorting.Over(done, nodes)
  }

  lemma {:induction false} OverWithout(s: seq<TargetNode>, k: nat, done: seq<TargetNode>, nodes: set<TargetNode>)
    requires Sorting.Over(s, nodes) && Sorting.Over(done, nodes) && k < |s|
    ensures Sorting.Over(Without(s, k), nodes) && Sorting.Over(done + [s[k]], nodes)
  {}

  lemma {:induction false} DistinctWithout(s: seq<TargetNode>, k: nat)
    requires DistinctTargets(s) && k < |s|
    ensures DistinctTargets(Without(s, k))
  {}

  /** One round of the innermost loop: draw, scan, move. */
  method SelectOne(targets: Node?<Target>, out: Node?<Target>, tail: Node?<Target>, sum: nat, rand: Source, step: nat,
                   ghost done: seq<TargetNode>, ghost rem: seq<TargetNode>, ghost num: nat,
                   ghost nodes: set<TargetNode>)
    returns (targets': Node?<Target>, out': TargetNode, t: TargetNode, sum': nat,
             ghost done': seq<TargetNode>, ghost rem': seq<TargetNode>)
    requires Draining(targets, out, tail, done, rem, nodes)
    requires 0 < num <= |rem| && sum == Sum(rem[..num]) && InRange(rand)
    modifies nodes
    ensures Draining(targets', out', t, done', rem', nodes)
    ensures |rem'| == |rem| - 1 && sum' == Sum(rem'[..num - 1])
    ensures done' + ToCome(rem', num - 1, step + 1, rand) == done + ToCome(rem, num, step, rand)
  {
    var randint := rand(step, sum);
    t := Scan(targets, randint, rem, num);
    ghost var k := Pick(rem, randint);
    done', rem' := done + [t], Without(rem, k);
    SumWithout(rem, num, k);
    ToComeStep(rem, num, step, rand, k);
    Sorting.Assoc(done, [t], ToCome(rem', num - 1, step + 1, rand));
    OverWithout(rem, k, done, nodes);
    DistinctWithout(rem, k);
    targets', out' := Move(targets, out, tail, t, done, rem, k);
    sum' := sum - Weight(t);
  }

  /** The loop over one priority. */
  method DrainGroup(targets0: Node?<Target>, out0: Node?<Target>, tail0: Node?<Target>, sum0: nat, num0: nat,
                    rand: Source, step0: nat, ghost done0: seq<TargetNode>, ghost rem0: seq<TargetNode>,
                    ghost nodes: set<TargetNode>)
    returns (targets: Node?<Target>, out: Node?<Target>, tail: Node?<Target>, step: nat,
             ghost done: seq<TargetNode>, ghost rem: seq<TargetNode>)
    requires Draining(targets0, out0, tail0, done0, rem0, nodes)
    requires num0 <= |rem0| && sum0 == Sum(rem0[..num0]) && InRange(rand)
    modifies nodes
    ensures Draining(targets, out, tail, done, rem, nodes) && |rem| == |rem0| - num0
    ensures done + ToCome(rem, 0, step, rand) == done0 + ToCome(rem0, num0, step0, rand)
  {
    hide *;
    targets, out, tail, step, done, rem := targets0, out0, tail0, step0, done0, rem0;
    var sum: nat, num: nat := sum0, num0;
    ghost var goal := done0 + ToCome(rem0, num0, step0, rand);
    while num > 0
      invariant num <= |rem| && |rem| - num == |rem0| - num0 && sum == Sum(rem[..num])
      invariant Draining(targets, out, tail, done, rem, nodes)
      invariant done + ToCome(rem, num, step, rand) == goal
    {
      targets, out, tail, sum, done, rem := SelectOne(targets, out, tail, sum, rand, step, done, rem, num, nodes);
      step, num := step + 1, num - 1;
    }
  }

  /** The loop over the priorities. */
  method DrainAll(targets0: Node?<Target>, rand: Source, ghost s: seq<TargetNode>, ghost nodes: set<TargetNode>)
    returns (out: Node?<Target>, ghost done: seq<TargetNode>)
    requires Chain(targets0, s) && DistinctTargets(s) && Sorting.Over(s, nodes) && InRange(rand)
    modifies nodes
    ensures NextChain(out, done)
    ensures done == Winners(Select(s, 0, 0, rand))
  {
    var targets, tail: Node?<Target>, step := targets0, null, 0;
    ghost var rem := s;
    ghost var goal := ToCome(s, 0, 0, rand);
    out, done := null, [];
    while targets != null
      invariant Draining(targets, out, tail, done, rem, nodes)
      invariant done + ToCome(rem, 0, step, rand) == goal
      decreases |rem|
    {
      var sum, num := MeasureGroup(targets, rem);
      ToComeOpens(rem, step, rand);
      targets, out, tail, step, done, rem := DrainGroup(targets, out, tail, sum, num, rand, step, done, rem, nodes);
    }
    assert rem == [] && done + [] == done;
  }

  lemma {:induction false} ScheduleOfTargets(s: seq<TargetNode>, rand: Source)
    requires DistinctTargets(s) && InRange(rand)
    ensures var done := Winners(Schedule(s, rand));
      && multiset(done) == multiset(s)
      && (forall i | 0 <= i < |done| :: done[i].data.Ptr?)
      && (forall i, j | 0 <= i < j < |done| :: done[i].data.value.priority <= done[j].data.value.priority)
  {
    ScheduleIsCorrect(s, rand);
    ScheduleInFields(s, rand);
  }

  /** The sort and the loops behind it. */
  method SortAndDrain(targets: Node?<Target>, rand: Source, ghost s: seq<TargetNode>)
    returns (out: Node?<Target>, ghost done: seq<TargetNode>)
    requires Chain(targets, s) && DistinctTargets(s) && InRange(rand)
    modifies s
    ensures NextChain(out, done)
    ensures done == Winners(Schedule(s, rand))
  {
    ghost var passes, calls, nodes, r := 0, 0, Members(s), Sorting.Sort(s, CmpTargets);
    var sorted;
    sorted, passes, calls := Sort(targets, CmpTargets, s);
    Sorting.SortPermutes(s, CmpTargets);
    Sorting.SameMembers(s, r, nodes);
    DistinctAfterSort(s, r);
    out, done := DrainAll(sorted, rand, r, nodes);
  }

  /** The part of `ta_srv_query_domain` after the answer has been read. */
  method OrderTargets(targets: Node?<Target>, rand: Source, ghost s: seq<TargetNode>)
    returns (out: Node?<Target>, ghost done: seq<TargetNode>)
    requires Chain(targets, s) && DistinctTargets(s) && InRange(rand)
    modifies s
    ensures NextChain(out, done)
    ensures done == Winners(Schedule(s, rand))
    ensures multiset(done) == multiset(s)
    ensures forall i | 0 <= i < |done| :: done[i].data.Ptr?
    ensures forall i, j | 0 <= i < j < |done| :: done[i].data.value.priority <= done[j].data.value.priority
  {
    hide *;
    ScheduleOfTargets(s, rand);
    out, done := SortAndDrain(targets, rand, s);
  }
}
