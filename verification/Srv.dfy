/** The ordering of SRV targets in `src/srv.c`, after "The format of the SRV RR" in RFC 2782.

  `Run` is the sequence of weighted selections on values; `SrvOrder.dfy` proves that the list program
  performs exactly this run.  Randomness is an input: a `Source` fixes the draw of every step, for every
  sum of weights it may meet. */
module Srv {
  import opened LinkedList
  import opened Sequences
  import Sorting

  class Target {
    const priority: nat
    const weight: nat
    const port: nat
    const host: string
    constructor (priority: nat, weight: nat, port: nat, host: string)
      ensures this.priority == priority && this.weight == weight && this.port == port && this.host == host
    {
      this.priority, this.weight, this.port, this.host := priority, weight, port, host;
    }
  }

  type TargetNode = Node<Target>

  function Priority(n: TargetNode): (p: nat) {
    if n.data.Ptr? then n.data.value.priority else 0
  }

  function Weight(n: TargetNode): (w: nat) {
    if n.data.Ptr? then n.data.value.weight else 0
  }

  /** The keys of a node are the fields of the target it holds. */
  lemma {:induction false} KeysAreFields(n: TargetNode)
    requires n.data.Ptr?
    ensures Priority(n) == n.data.value.priority && Weight(n) == n.data.value.weight
  {}

  /** `cmp_targets`; both fields have 16 bits, so the differences fit an `int`. */
  function CmpTargets(a: TargetNode, b: TargetNode): (c: int) {
    if Priority(a) == Priority(b) then Weight(a) - Weight(b) else Priority(a) - Priority(b)
  }

  lemma {:induction false} CmpTargetsPreorder(dom: set<TargetNode>)
    ensures Sorting.TotalPreorder(CmpTargets, dom)
  {}

  /** By priority, and by weight inside a priority. */
  ghost predicate Arranged(s: seq<TargetNode>) {
    forall i, j | 0 <= i < j < |s| ::
      Priority(s[i]) < Priority(s[j]) || (Priority(s[i]) == Priority(s[j]) && Weight(s[i]) <= Weight(s[j]))
  }

  lemma {:induction false} ArrangedIsOrdered(s: seq<TargetNode>)
    ensures Arranged(s) <==> Sorting.Ordered(s, CmpTargets)
  {
    assert forall a, b :: CmpTargets(a, b) <= 0 <==>
                          Priority(a) < Priority(b) || (Priority(a) == Priority(b) && Weight(a) <= Weight(b));
  }

  /** The same over the fields of the targets. */
  lemma {:induction false} ArrangedInFields(s: seq<TargetNode>)
    requires forall i | 0 <= i < |s| :: s[i].data.Ptr?
    ensures Sorting.Ordered(s, CmpTargets) <==>
            forall i, j | 0 <= i < j < |s| ::
              || s[i].data.value.priority < s[j].data.value.priority
              || (s[i].data.value.priority == s[j].data.value.priority
                  && s[i].data.value.weight <= s[j].data.value.weight)
  {
    ArrangedIsOrdered(s);
  }

  ghost predicate ByPriority(s: seq<TargetNode>) {
    forall i, j | 0 <= i < j < |s| :: Priority(s[i]) <= Priority(s[j])
  }

  // ---------------------------------------------------------------- one selection

  function Sum(s: seq<TargetNode>): (t: nat) {
    if s == [] then 0 else Weight(s[0]) + Sum(s[1..])
  }

  /** The running sum of RFC 2782 after the first `k` targets. */
  function RunningSum(s: seq<TargetNode>, k: nat): (t: nat)
    requires k <= |s|
  {
    Sum(s[..k])
  }

  /** The scan of the program: subtract weights from the draw until one covers the rest; `|s|` if none does. */
  function Pick(s: seq<TargetNode>, draw: nat): (k: nat)
    ensures k <= |s|
  {
    if s == [] || Weight(s[0]) >= draw then 0 else 1 + Pick(s[1..], draw - Weight(s[0]))
  }

  lemma {:induction false} RunningSumStep(s: seq<TargetNode>, k: nat)
    requires 0 < k <= |s|
    ensures RunningSum(s, k) == Weight(s[0]) + RunningSum(s[1..], k - 1)
  {
    assert s[..k][1..] == s[1..][..k - 1];
  }

  lemma {:induction false} RunningSumGrows(s: seq<TargetNode>, j: nat, k: nat)
    requires j <= k <= |s|
    ensures RunningSum(s, j) <= RunningSum(s, k)
  {
    if j > 0 {
      RunningSumStep(s, j);
      RunningSumStep(s, k);
      RunningSumGrows(s[1..], j - 1, k - 1);
    }
  }

  /** The draws that select target `k`: those above the running sum before it, up to the one that includes it. */
  lemma {:induction false} PickWindow(s: seq<TargetNode>, draw: nat, k: nat)
    requires k < |s|
    ensures Pick(s, draw) == k <==> draw <= RunningSum(s, k + 1) && (k == 0 || RunningSum(s, k) < draw)
  {
    RunningSumStep(s, k + 1);
    if k > 0 {
      RunningSumStep(s, k);
      if Weight(s[0]) < draw {
        PickWindow(s[1..], draw - Weight(s[0]), k - 1);
      }
    }
  }

  /** "The first one whose running sum is greater than or equal to the random number": for every group and draw. */
  lemma {:induction false} PickIsFirstReached(s: seq<TargetNode>, draw: nat, k: nat)
    requires k < |s|
    ensures Pick(s, draw) == k <==>
            RunningSum(s, k + 1) >= draw && forall j | 0 < j <= k :: RunningSum(s, j) < draw
  {
    PickWindow(s, draw, k);
    forall j | 0 < j <= k ensures RunningSum(s, j) <= RunningSum(s, k) {
      RunningSumGrows(s, j, k);
    }
  }

  /** The scan stops among the first `num` targets exactly if the draw does not exceed their weight sum. */
  lemma {:induction false} PickStaysInGroup(s: seq<TargetNode>, num: nat, draw: nat)
    requires 0 < num <= |s|
    ensures Pick(s, draw) < num <==> draw <= Sum(s[..num])
  {
    var g := s[..num];
    assert g[1..] == s[1..][..num - 1];
    if Weight(s[0]) < draw && num > 1 {
      PickStaysInGroup(s[1..], num - 1, draw - Weight(s[0]));
    }
  }

  lemma {:induction false} SumConcat(a: seq<TargetNode>, b: seq<TargetNode>)
    ensures Sum(a + b) == Sum(a) + Sum(b)
  {
    if a == [] {
      assert a + b == b;
    } else {
      SumConcat(a[1..], b);
      assert (a + b)[1..] == a[1..] + b;
    }
  }

  /** The draws `0..Sum(g)` that select target `k`. */
  ghost function Draws(g: seq<TargetNode>, k: nat): (d: set<nat>) {
    set d: nat | d <= Sum(g) && Pick(g, d) == k
  }

  lemma {:induction false} IntervalSize(lo: nat, hi: nat, d: set<nat>)
    requires lo <= hi && forall x: nat :: x in d <==> lo <= x < hi
    ensures |d| == hi - lo
    decreases hi
  {
    if lo == hi {
      assert d == {};
    } else {
      assert d == (d - {hi - 1}) + {hi - 1};
      IntervalSize(lo, hi - 1, d - {hi - 1});
    }
  }

  /** Each target is selected by exactly as many draws as its weight, the first one by one more. */
  lemma {:induction false} DrawsPartition(g: seq<TargetNode>, k: nat)
    requires k < |g|
    ensures |Draws(g, k)| == Weight(g[k]) + if k == 0 then 1 else 0
  {
    assert g[..k + 1] == g[..k] + [g[k]];
    SumConcat(g[..k], [g[k]]);
    assert RunningSum(g, k + 1) == RunningSum(g, k) + Weight(g[k]);
    RunningSumGrows(g, k + 1, |g|);
    assert g[..|g|] == g;
    var lo := if k == 0 then 0 else RunningSum(g, k) + 1;
    var hi := RunningSum(g, k + 1) + 1;
    forall d: nat ensures d in Draws(g, k) <==> lo <= d < hi {
      PickWindow(g, d, k);
    }
    IntervalSize(lo, hi, Draws(g, k));
  }

  /** Every draw selects some target of the group, so the sets of `DrawsPartition` cover `0..Sum(g)`. */
  lemma {:induction false} DrawsCover(g: seq<TargetNode>, draw: nat)
    requires g != []
    ensures draw <= Sum(g) <==> exists k | 0 <= k < |g| :: draw in Draws(g, k)
  {
    PickStaysInGroup(g, |g|, draw);
    assert g[..|g|] == g;
    if draw <= Sum(g) {
      assert draw in Draws(g, Pick(g, draw));
    }
  }

  /** The draw: the product `(rand () / RAND_MAX) * (sum + 1)`, as computed and rounded, is truncated. */
  function Draw(product: real): (draw: nat)
    requires product >= 0.0
  {
    product.Floor
  }

  lemma {:induction false} DrawRange(product: real, sum: nat)
    requires product >= 0.0
    ensures Draw(product) <= sum <==> product < (sum + 1) as real
  {
    if Draw(product) <= sum {
      assert Draw(product) as real <= sum as real;
    }
  }

  /** The scan leaves the priority group exactly if the computed product reaches `sum + 1`. */
  lemma {:induction false} ScanLeavesGroupAtSumPlusOne(s: seq<TargetNode>, num: nat, product: real)
    requires 0 < num <= |s| && product >= 0.0
    ensures Pick(s, Draw(product)) < num <==> product < (Sum(s[..num]) + 1) as real
  {
    DrawRange(product, Sum(s[..num]));
    PickStaysInGroup(s, num, Draw(product));
  }

  /** The product before it is rounded. */
  function Product(quotient: real, sum: nat): (product: real)
    requires 0.0 <= quotient <= 1.0
    ensures product >= 0.0
    ensures product < (sum + 1) as real <==> quotient < 1.0
  {
    var m := (sum + 1) as real;
    assert quotient < 1.0 ==> (1.0 - quotient) * m > 0.0;
    quotient * m
  }

  /** Without rounding, the draw `d` stands for the products from `d` up to `d + 1`. */
  lemma {:induction false} DrawOfProduct(quotient: real, sum: nat, d: nat)
    requires 0.0 <= quotient <= 1.0
    ensures Draw(Product(quotient, sum)) == d <==> d as real <= quotient * (sum + 1) as real < (d + 1) as real
  {
    var x := Product(quotient, sum);
    if d as real <= x < (d + 1) as real {
      assert Draw(x) as real <= x < (Draw(x) + 1) as real;
    }
  }

  /** Were the product not rounded, that would be exactly if the quotient is 1. */
  lemma {:induction false} ScanLeavesGroupAtQuotientOne(s: seq<TargetNode>, num: nat, quotient: real)
    requires 0 < num <= |s| && 0.0 <= quotient <= 1.0
    ensures Pick(s, Draw(Product(quotient, Sum(s[..num])))) < num <==> quotient < 1.0
  {
    ScanLeavesGroupAtSumPlusOne(s, num, Product(quotient, Sum(s[..num])));
  }

  // ---------------------------------------------------------------- a run of selections

  /** How many targets at the front share the priority `p`. */
  function GroupSize(s: seq<TargetNode>, p: int): (num: nat)
    ensures num <= |s|
    ensures forall i | 0 <= i < num :: Priority(s[i]) == p
    ensures num < |s| ==> Priority(s[num]) != p
  {
    if s == [] || Priority(s[0]) != p then 0 else 1 + GroupSize(s[1..], p)
  }

  /** One selection: what was left of the group, the draw, and the target taken. */
  datatype Selection = Selection(group: seq<TargetNode>, draw: nat, winner: TargetNode)

  /** The selections of a run, first to last. */
  datatype Run = End | Then(sel: Selection, rest: Run)

  /** The draw made in a step with a given sum of weights. */
  type Source = (nat, nat) -> nat

  /** Every draw lies in `0..sum`. */
  ghost predicate InRange(rand: Source) {
    forall step, sum :: rand(step, sum) <= sum
  }

  /** The draws of a run are in range exactly if no product, as computed, reaches `sum + 1`. */
  lemma {:induction false} ProductsAreInRange(product: (nat, nat) -> real)
    requires forall step, sum :: product(step, sum) >= 0.0
    ensures (forall step, sum :: Draw(product(step, sum)) <= sum)
            <==> forall step, sum :: product(step, sum) < (sum + 1) as real
  {
    forall step, sum ensures Draw(product(step, sum)) <= sum <==> product(step, sum) < (sum + 1) as real {
      DrawRange(product(step, sum), sum);
    }
  }

  /** Without rounding they are in range exactly if no quotient is 1. */
  lemma {:induction false} QuotientsAreInRange(quotient: nat -> real)
    requires forall step :: 0.0 <= quotient(step) <= 1.0
    ensures (forall step, sum :: Draw(Product(quotient(step), sum)) <= sum) <==> forall step :: quotient(step) < 1.0
  {
    forall step, sum ensures Draw(Product(quotient(step), sum)) <= sum <==> quotient(step) < 1.0 {
      DrawRange(Product(quotient(step), sum), sum);
    }
    if forall step, sum :: Draw(Product(quotient(step), sum)) <= sum {
      forall step ensures quotient(step) < 1.0 {
        assert Draw(Product(quotient(step), 0)) <= 0;
      }
    }
  }

  /** The selections made from the targets `s`, of which the first `num` are an undrained group. */
  ghost function Select(s: seq<TargetNode>, num: nat, step: nat, rand: Source): (run: Run)
    requires num <= |s| && InRange(rand)
    decreases |s|, if num == 0 then 1 else 0
  {
    if s == [] then End
    else if num == 0 then
      Select(s, GroupSize(s, Priority(s[0])), step, rand)
    else
      var draw := rand(step, Sum(s[..num]));
      var k := Pick(s, draw);
      PickStaysInGroup(s, num, draw);
      Then(Selection(s[..num], draw, s[k]), Select(Without(s, k), num - 1, step + 1, rand))
  }

  /** The order in which targets are to be tried, for given draws. */
  ghost function Schedule(s: seq<TargetNode>, rand: Source): (run: Run)
    requires InRange(rand)
  {
    Select(Sorting.Sort(s, CmpTargets), 0, 0, rand)
  }

  ghost function Winners(run: Run): (s: seq<TargetNode>) {
    match run
    case End => []
    case Then(sel, rest) => [sel.winner] + Winners(rest)
  }

  ghost function Bag(run: Run): (b: multiset<TargetNode>) {
    match run
    case End => multiset{}
    case Then(sel, rest) => multiset{sel.winner} + Bag(rest)
  }

  lemma {:induction false} BagOfWinners(run: Run)
    ensures multiset(Winners(run)) == Bag(run)
  {
    match run
    case End =>
    case Then(sel, rest) => BagOfWinners(rest);
  }

  /** A positive draw takes a target of positive weight; a draw of 0 takes one of least weight, so one of
    weight 0 if the group has any. */
  ghost predicate Fair(sel: Selection) {
    && sel.winner in sel.group
    && sel.draw <= Sum(sel.group)
    && (sel.draw > 0 ==> Weight(sel.winner) > 0)
    && (sel.draw == 0 ==> forall n | n in sel.group :: Weight(sel.winner) <= Weight(n))
  }

  ghost predicate AllFair(run: Run) {
    match run
    case End => true
    case Then(sel, rest) => Fair(sel) && AllFair(rest)
  }

  ghost function Members<E>(s: seq<E>): (m: set<E>) {
    set n | n in s
  }

  /** Each selection is made from all the targets of its priority that are still to come. */
  ghost predicate WholeGroups(run: Run) {
    match run
    case End => true
    case Then(sel, rest) =>
      && Members(sel.group) == (set n | n in Bag(run) && Priority(n) == Priority(sel.winner))
      && WholeGroups(rest)
  }

  ghost predicate AllAtLeast(run: Run, p: int) {
    match run
    case End => true
    case Then(sel, rest) => p <= Priority(sel.winner) && AllAtLeast(rest, p)
  }

  /** No selection is followed by one of a smaller priority. */
  ghost predicate LowestFirst(run: Run) {
    match run
    case End => true
    case Then(sel, rest) => AllAtLeast(rest, Priority(sel.winner)) && LowestFirst(rest)
  }

  lemma {:induction false} WinnersAtLeast(run: Run, p: int)
    requires AllAtLeast(run, p)
    ensures forall j | 0 <= j < |Winners(run)| :: p <= Priority(Winners(run)[j])
  {
    match run
    case End =>
    case Then(sel, rest) => WinnersAtLeast(rest, p);
  }

  lemma {:induction false} WinnersByPriority(run: Run)
    requires LowestFirst(run)
    ensures ByPriority(Winners(run))
  {
    match run
    case End =>
    case Then(sel, rest) =>
      WinnersByPriority(rest);
      WinnersAtLeast(rest, Priority(sel.winner));
  }

  /** The first `num` targets are what is left of one priority, or nothing. */
  ghost predicate GroupFirst(s: seq<TargetNode>, num: nat) {
    && num <= |s|
    && (forall i | 0 <= i < num :: Priority(s[i]) == Priority(s[0]))
    && (num > 0 ==> forall i | num <= i < |s| :: Priority(s[i]) != Priority(s[0]))
  }

  lemma {:induction false} WithoutKeeps(s: seq<TargetNode>, num: nat, k: nat)
    requires Arranged(s) && GroupFirst(s, num) && k < num
    ensures Arranged(Without(s, k)) && GroupFirst(Without(s, k), num - 1)
  {}

  lemma {:induction false} StartGroup(s: seq<TargetNode>)
    requires Arranged(s) && s != []
    ensures GroupFirst(s, GroupSize(s, Priority(s[0])))
  {
    var num := GroupSize(s, Priority(s[0]));
    assert num < |s| ==> Priority(s[0]) < Priority(s[num]);
  }

  lemma {:induction false} BagStep(s: seq<TargetNode>, k: nat, sel: Selection, rest: Run)
    requires k < |s| && sel.winner == s[k] && Bag(rest) == multiset(Without(s, k))
    ensures Bag(Then(sel, rest)) == multiset(s)
  {
    WithoutMultiset(s, k);
  }

  /** One selection and what follows it. */
  lemma {:induction false} SelectStep(s: seq<TargetNode>, num: nat, step: nat, rand: Source)
    requires 0 < num <= |s| && InRange(rand)
    ensures var draw := rand(step, Sum(s[..num]));
      var k := Pick(s, draw);
      && k < num
      && Select(s, num, step, rand)
         == Then(Selection(s[..num], draw, s[k]), Select(Without(s, k), num - 1, step + 1, rand))
  {
    PickStaysInGroup(s, num, rand(step, Sum(s[..num])));
  }

  lemma {:induction false} SelectPermutes(s: seq<TargetNode>, num: nat, step: nat, rand: Source)
    requires num <= |s| && InRange(rand)
    ensures Bag(Select(s, num, step, rand)) == multiset(s)
    decreases |s|, if num == 0 then 1 else 0
  {
    if s == [] {
    } else if num == 0 {
      SelectPermutes(s, GroupSize(s, Priority(s[0])), step, rand);
    } else {
      hide Select, Bag, Pick, Sum;
      SelectStep(s, num, step, rand);
      var k := Pick(s, rand(step, Sum(s[..num])));
      SelectPermutes(Without(s, k), num - 1, step + 1, rand);
      var run := Select(s, num, step, rand);
      BagStep(s, k, run.sel, run.rest);
    }
  }

  lemma {:induction false} FairPick(s: seq<TargetNode>, num: nat, draw: nat)
    requires Arranged(s) && GroupFirst(s, num) && num > 0 && draw <= Sum(s[..num])
    requires Pick(s, draw) < num
    ensures Fair(Selection(s[..num], draw, s[Pick(s, draw)]))
  {
    var k := Pick(s, draw);
    PickWindow(s, draw, k);
    assert s[..k + 1] == s[..k] + [s[k]];
    SumConcat(s[..k], [s[k]]);
    assert s[..num][k] == s[k];
    if draw == 0 {
      forall n | n in s[..num] ensures Weight(s[0]) <= Weight(n) {
        var i :| 0 <= i < num && s[i] == n;
      }
    }
  }

  /** Every selection of a run from an arranged list is fair. */
  lemma {:induction false} SelectIsFair(s: seq<TargetNode>, num: nat, step: nat, rand: Source)
    requires InRange(rand) && Arranged(s) && GroupFirst(s, num)
    ensures AllFair(Select(s, num, step, rand))
    decreases |s|, if num == 0 then 1 else 0
  {
    if s == [] {
    } else if num == 0 {
      StartGroup(s);
      SelectIsFair(s, GroupSize(s, Priority(s[0])), step, rand);
    } else {
      var draw := rand(step, Sum(s[..num]));
      var k := Pick(s, draw);
      PickStaysInGroup(s, num, draw);
      FairPick(s, num, draw);
      WithoutKeeps(s, num, k);
      SelectIsFair(Without(s, k), num - 1, step + 1, rand);
    }
  }

  ghost predicate SeqAtLeast(s: seq<TargetNode>, p: int) {
    forall i | 0 <= i < |s| :: p <= Priority(s[i])
  }

  lemma {:induction false} SelectAtLeast(s: seq<TargetNode>, num: nat, step: nat, rand: Source, p: int)
    requires num <= |s| && InRange(rand) && SeqAtLeast(s, p)
    ensures AllAtLeast(Select(s, num, step, rand), p)
    decreases |s|, if num == 0 then 1 else 0
  {
    if s == [] {
    } else if num == 0 {
      SelectAtLeast(s, GroupSize(s, Priority(s[0])), step, rand, p);
    } else {
      var draw := rand(step, Sum(s[..num]));
      var k := Pick(s, draw);
      PickStaysInGroup(s, num, draw);
      SelectAtLeast(Without(s, k), num - 1, step + 1, rand, p);
    }
  }

  lemma {:induction false} WithoutAtLeast(s: seq<TargetNode>, num: nat, k: nat)
    requires Arranged(s) && GroupFirst(s, num) && k < num
    ensures SeqAtLeast(Without(s, k), Priority(s[k]))
  {
    assert forall i | 0 < i < |s| :: Priority(s[0]) <= Priority(s[i]);
    assert Priority(s[k]) == Priority(s[0]);
  }

  /** The winners come out by priority. */
  lemma {:induction false} SelectByPriority(s: seq<TargetNode>, num: nat, step: nat, rand: Source)
    requires InRange(rand) && Arranged(s) && GroupFirst(s, num)
    ensures LowestFirst(Select(s, num, step, rand))
    decreases |s|, if num == 0 then 1 else 0
  {
    if s == [] {
    } else if num == 0 {
      StartGroup(s);
      SelectByPriority(s, GroupSize(s, Priority(s[0])), step, rand);
    } else {
      var draw := rand(step, Sum(s[..num]));
      var k := Pick(s, draw);
      PickStaysInGroup(s, num, draw);
      WithoutKeeps(s, num, k);
      SelectByPriority(Without(s, k), num - 1, step + 1, rand);
      WithoutAtLeast(s, num, k);
      SelectAtLeast(Without(s, k), num - 1, step + 1, rand, Priority(s[k]));
    }
  }

  lemma {:induction false} WholeGroup(s: seq<TargetNode>, num: nat)
    requires GroupFirst(s, num) && num > 0
    ensures Members(s[..num]) == set n | n in multiset(s) && Priority(n) == Priority(s[0])
  {
    forall n | n in multiset(s) ensures n in s[..num] <==> Priority(n) == Priority(s[0]) {
      var i :| 0 <= i < |s| && s[i] == n;
      if i < num { assert s[..num][i] == n; }
    }
    assert forall n | n in s[..num] :: n in s;
  }

  /** Every selection of a run is made from a whole group. */
  lemma {:induction false} SelectTakesWholeGroups(s: seq<TargetNode>, num: nat, step: nat, rand: Source)
    requires InRange(rand) && Arranged(s) && GroupFirst(s, num)
    ensures WholeGroups(Select(s, num, step, rand))
    decreases |s|, if num == 0 then 1 else 0
  {
    if s == [] {
    } else if num == 0 {
      StartGroup(s);
      SelectTakesWholeGroups(s, GroupSize(s, Priority(s[0])), step, rand);
    } else {
      var draw := rand(step, Sum(s[..num]));
      var k := Pick(s, draw);
      PickStaysInGroup(s, num, draw);
      WithoutKeeps(s, num, k);
      SelectTakesWholeGroups(Without(s, k), num - 1, step + 1, rand);
      SelectPermutes(s, num, step, rand);
      WholeGroup(s, num);
    }
  }

  ghost predicate ByWeight(s: seq<TargetNode>) {
    forall i, j | 0 <= i < j < |s| :: Weight(s[i]) <= Weight(s[j])
  }

  /** The first member of `s` whose running sum is at least `draw`. */
  ghost predicate Reached(s: seq<TargetNode>, draw: nat, n: TargetNode) {
    exists k | 0 <= k < |s| :: s[k] == n && draw <= RunningSum(s, k + 1) && (k == 0 || RunningSum(s, k) < draw)
  }

  /** Each selection uses the draw of its step for its sum of weights, and takes the target the draw reaches in the
    group ordered by weight. */
  ghost predicate AllDrawn(run: Run, step: nat, rand: Source) {
    match run
    case End => true
    case Then(sel, rest) =>
      && sel.draw == rand(step, Sum(sel.group))
      && ByWeight(sel.group) && Reached(sel.group, sel.draw, sel.winner)
      && AllDrawn(rest, step + 1, rand)
  }

  lemma {:induction false} PickReaches(s: seq<TargetNode>, num: nat, draw: nat)
    requires num <= |s| && Pick(s, draw) < num
    ensures Reached(s[..num], draw, s[Pick(s, draw)])
  {
    var k := Pick(s, draw);
    PickWindow(s, draw, k);
    var g := s[..num];
    assert g[..k + 1] == s[..k + 1] && g[..k] == s[..k];
    hide Pick, Sum;
    assert g[k] == s[k] && draw <= RunningSum(g, k + 1) && (k == 0 || RunningSum(g, k) < draw);
  }

  lemma {:induction false} GroupByWeight(s: seq<TargetNode>, num: nat)
    requires Arranged(s) && GroupFirst(s, num)
    ensures ByWeight(s[..num])
  {}

  /** Every selection of a run is drawn. */
  lemma {:induction false} SelectIsDrawn(s: seq<TargetNode>, num: nat, step: nat, rand: Source)
    requires InRange(rand) && Arranged(s) && GroupFirst(s, num)
    ensures AllDrawn(Select(s, num, step, rand), step, rand)
    decreases |s|, if num == 0 then 1 else 0
  {
    if s == [] {
    } else if num == 0 {
      StartGroup(s);
      SelectIsDrawn(s, GroupSize(s, Priority(s[0])), step, rand);
    } else {
      hide Select, Pick, Sum, Reached, ByWeight, Arranged, GroupFirst;
      SelectStep(s, num, step, rand);
      var draw := rand(step, Sum(s[..num]));
      PickReaches(s, num, draw);
      GroupByWeight(s, num);
      WithoutKeeps(s, num, Pick(s, draw));
      SelectIsDrawn(Without(s, Pick(s, draw)), num - 1, step + 1, rand);
    }
  }

  /** The main result about the order, for all targets and all draws in range. */
  lemma {:induction false} ScheduleIsCorrect(s: seq<TargetNode>, rand: Source)
    requires InRange(rand)
    ensures multiset(Winners(Schedule(s, rand))) == multiset(s)
    ensures ByPriority(Winners(Schedule(s, rand)))
    ensures AllFair(Schedule(s, rand))
    ensures WholeGroups(Schedule(s, rand))
    ensures AllDrawn(Schedule(s, rand), 0, rand)
  {
    var dom := Members(s);
    var r := Sorting.Sort(s, CmpTargets);
    CmpTargetsPreorder(dom);
    Sorting.SortOrders(s, CmpTargets, dom);
    Sorting.SortPermutes(s, CmpTargets);
    ArrangedIsOrdered(r);
    SelectPermutes(r, 0, 0, rand);
    BagOfWinners(Schedule(s, rand));
    SelectByPriority(r, 0, 0, rand);
    WinnersByPriority(Schedule(s, rand));
    SelectIsFair(r, 0, 0, rand);
    SelectTakesWholeGroups(r, 0, 0, rand);
    SelectIsDrawn(r, 0, 0, rand);
  }

  /** Fairness over the fields of the targets. */
  ghost predicate AllFairInFields(run: Run) {
    match run
    case End => true
    case Then(sel, rest) =>
      && sel.winner in sel.group && (forall n | n in sel.group :: n.data.Ptr?)
      && (sel.draw > 0 ==> sel.winner.data.value.weight > 0)
      && (sel.draw == 0 ==> forall n | n in sel.group :: sel.winner.data.value.weight <= n.data.value.weight)
      && AllFairInFields(rest)
  }

  lemma {:induction false} FairInFields(run: Run)
    requires AllFair(run) && WholeGroups(run) && forall n | n in Bag(run) :: n.data.Ptr?
    ensures AllFairInFields(run)
  {
    match run
    case End =>
    case Then(sel, rest) =>
      forall n | n in sel.group ensures n.data.Ptr? {
        assert n in Members(sel.group);
      }
      FairInFields(rest);
  }

  /** The order and the fairness of every run, in the fields of the targets. */
  lemma {:induction false} ScheduleInFields(s: seq<TargetNode>, rand: Source)
    requires InRange(rand) && forall n | n in s :: n.data.Ptr?
    ensures var done := Winners(Schedule(s, rand));
      && (forall i | 0 <= i < |done| :: done[i].data.Ptr?)
      && (forall i, j | 0 <= i < j < |done| :: done[i].data.value.priority <= done[j].data.value.priority)
    ensures AllFairInFields(Schedule(s, rand))
  {
    var run := Schedule(s, rand);
    var done := Winners(run);
    ScheduleIsCorrect(s, rand);
    BagOfWinners(run);
    forall n: TargetNode | n in multiset(done) ensures n.data.Ptr? {
      assert n in multiset(s);
    }
    hide Schedule, Winners;
    FairInFields(run);
    forall i | 0 <= i < |done| ensures done[i].data.Ptr? {
      assert done[i] in multiset(done);
    }
    forall i, j | 0 <= i < j < |done|
      ensures done[i].data.value.priority <= done[j].data.value.priority {
      KeysAreFields(done[i]);
      KeysAreFields(done[j]);
    }
  }
}
