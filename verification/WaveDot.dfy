/** `wave32_tree_sum` and `avx512bf16_wave32_dot`: strided lane accumulators followed by
    an in-place tree reduction. The addition and the pair accumulation are arbitrary
    functions, so the results fix the exact order of every rounding operation. */
module WaveDot {
  import opened Sequences

  // -------------------------------------------------------------- the reduction tree

  function Evens<T>(s: seq<T>): (r: seq<T>)
    ensures |r| == (|s| + 1) / 2
  {
    seq((|s| + 1) / 2, i requires 0 <= i < (|s| + 1) / 2 => s[2 * i])
  }

  function Odds<T>(s: seq<T>): (r: seq<T>)
    ensures |r| == |s| / 2
  {
    seq(|s| / 2, i requires 0 <= i < |s| / 2 => s[2 * i + 1])
  }

  /** The sum of the even lanes plus the sum of the odd lanes, down to single lanes. */
  ghost function Tree<T>(s: seq<T>, add: (T, T) -> T): T
    requires |s| >= 1
    decreases |s|
  {
    if |s| == 1 then s[0] else add(Tree(Evens(s), add), Tree(Odds(s), add))
  }

  predicate PowerOfTwo(n: nat)
    decreases n
  {
    n == 1 || (n > 1 && n % 2 == 0 && PowerOfTwo(n / 2))
  }

  /** The tree over the lanes `l`, `l + w`, `l + 2 * w`, ... */
  ghost function Node<T>(s: seq<T>, add: (T, T) -> T, w: nat, l: nat): T
    requires 0 < w && l < w && w <= |s|
    decreases |s| - w
  {
    if 2 * w > |s| then s[l] else add(Node(s, add, 2 * w, l), Node(s, add, 2 * w, l + w))
  }

  /** Striding through the even or odd lanes is striding twice as far through all lanes. */
  lemma {:induction false} NodeOfHalves<T>(s: seq<T>, add: (T, T) -> T, w: nat, l: nat)
    requires |s| % 2 == 0 && 0 < w && l < w && 2 * w <= |s|
    ensures Node(Evens(s), add, w, l) == Node(s, add, 2 * w, 2 * l)
    ensures Node(Odds(s), add, w, l) == Node(s, add, 2 * w, 2 * l + 1)
    decreases |s| - w
  {
    if 4 * w <= |s| {
      NodeOfHalves(s, add, 2 * w, l);
      NodeOfHalves(s, add, 2 * w, l + w);
    }
  }

  lemma {:induction false} NodeIsTree<T>(s: seq<T>, add: (T, T) -> T)
    requires PowerOfTwo(|s|)
    ensures Node(s, add, 1, 0) == Tree(s, add)
    decreases |s|
  {
    if |s| > 1 {
      NodeOfHalves(s, add, 1, 0);
      NodeIsTree(Evens(s), add);
      NodeIsTree(Odds(s), add);
    }
  }

  /** `wave32_tree_sum`: lane 0 ends as the tree of all lanes, although the loop also
      overwrites lanes above `offset` that it will not read again. */
  method TreeSum<T>(lanes: array<T>, add: (T, T) -> T) returns (sum: T)
    requires PowerOfTwo(lanes.Length)
    modifies lanes
    ensures sum == Tree(old(lanes[..]), add)
  {
    ghost var s, n := lanes[..], lanes.Length;
    var offset := lanes.Length / 2;
    ghost var width := lanes.Length; // twice the offset of the next round
    while offset > 0
      invariant 0 < width <= n && offset == width / 2
      invariant PowerOfTwo(width)
      invariant forall l :: 0 <= l < width ==> lanes[l] == Node(s, add, width, l)
      decreases offset
    {
      Reduce(lanes, offset, add, s);
      offset, width := offset / 2, width / 2;
    }
    sum := lanes[0];
    NodeIsTree(s, add);
  }

  /** One round of the reduction. */
  method Reduce<T>(lanes: array<T>, offset: nat, add: (T, T) -> T, ghost s: seq<T>)
    requires 0 < offset && 2 * offset <= lanes.Length == |s|
    requires forall l :: 0 <= l < 2 * offset ==> lanes[l] == Node(s, add, 2 * offset, l)
    modifies lanes
    ensures forall l :: 0 <= l < offset ==> lanes[l] == Node(s, add, offset, l)
  {
    for lane := 0 to lanes.Length - offset
      invariant forall l :: 0 <= l < lane && l < offset ==> lanes[l] == Node(s, add, offset, l)
      invariant forall l :: lane <= l < lanes.Length ==> lanes[l] == old(lanes[l])
    {
      lanes[lane] := add(lanes[lane], lanes[lane + offset]);
    }
  }

  // ------------------------------------------------------------------ the dot product

  const LANES: nat := 32

  /** Lane `l`'s accumulator after `blocks` blocks of 32 pairs: block `b` adds the pair
      number `32 * b + l`. */
  ghost function LaneFold<T>(zero: T, dp: (T, int, int, int, int) -> T, input: seq<int>, weight: seq<int>, l: nat, blocks: nat): T
    requires l < LANES && 2 * LANES * blocks <= |input| == |weight|
  {
    if blocks == 0 then zero
    else
      var k := 2 * (LANES * (blocks - 1) + l);
      dp(LaneFold(zero, dp, input, weight, l, blocks - 1), input[k], weight[k], input[k + 1], weight[k + 1])
  }

  ghost function LaneFolds<T>(zero: T, dp: (T, int, int, int, int) -> T, input: seq<int>, weight: seq<int>, blocks: nat): (lanes: seq<T>)
    requires 2 * LANES * blocks <= |input| == |weight|
    ensures |lanes| == LANES
  {
    seq(LANES, l requires 0 <= l < LANES => LaneFold(zero, dp, input, weight, l, blocks))
  }

  /** `avx512bf16_wave32_dot`: `dp` is the pair accumulation of `_mm512_dpbf16_ps`. */
  method Wave32Dot<T>(zero: T, dp: (T, int, int, int, int) -> T, add: (T, T) -> T, input: seq<int>, weight: seq<int>)
    returns (sum: T)
    requires |input| == |weight| && |input| % (2 * LANES) == 0
    ensures sum == Tree(LaneFolds(zero, dp, input, weight, |input| / (2 * LANES)), add)
  {
    var lanes := new T[LANES](_ => zero);
    var pair := 0;
    ghost var block := 0;
    while pair < |input| / 2
      invariant 0 <= pair == LANES * block <= |input| / 2
      invariant forall l :: 0 <= l < LANES ==> lanes[l] == LaneFold(zero, dp, input, weight, l, block)
    {
      for lane := 0 to LANES
        invariant forall l :: 0 <= l < LANES ==>
                    lanes[l] == LaneFold(zero, dp, input, weight, l, if l < lane then block + 1 else block)
      {
        var k := 2 * (pair + lane);
        lanes[lane] := dp(lanes[lane], input[k], weight[k], input[k + 1], weight[k + 1]);
      }
      pair, block := pair + LANES, block + 1;
    }
    assert lanes[..] == LaneFolds(zero, dp, input, weight, block);
    sum := TreeSum(lanes, add);
  }

  // ------------------------------------------------------------------ exact arithmetic

  function Plus(a: int, b: int): int {
    a + b
  }

  function PairDot(acc: int, a: int, x: int, b: int, y: int): int {
    acc + a * x + b * y
  }

  /** The sum of all products of the first `n` elements. */
  ghost function Dot(input: seq<int>, weight: seq<int>, n: nat): int
    requires n <= |input| == |weight|
  {
    if n == 0 then 0 else Dot(input, weight, n - 1) + input[n - 1] * weight[n - 1]
  }

  lemma {:induction false} SumHalves(s: seq<int>)
    ensures Sum(s) == Sum(Evens(s)) + Sum(Odds(s))
  {
    if |s| != 0 {
      var n := |s| - 1;
      SumHalves(s[..n]);
      if n % 2 == 0 {
        assert Evens(s)[..n / 2] == Evens(s[..n]) && Odds(s) == Odds(s[..n]);
      } else {
        assert Odds(s)[..n / 2] == Odds(s[..n]) && Evens(s) == Evens(s[..n]);
      }
    }
  }

  lemma {:induction false} TreeIsSum(s: seq<int>)
    requires |s| >= 1
    ensures Tree(s, Plus) == Sum(s)
    decreases |s|
  {
    if |s| == 1 {
      assert s[..0] == [];
    } else {
      SumHalves(s);
      TreeIsSum(Evens(s));
      TreeIsSum(Odds(s));
    }
  }

  /** Some lanes have taken in one block more than the others. */
  ghost function Mixed(input: seq<int>, weight: seq<int>, block: nat, lane: nat): (lanes: seq<int>)
    requires lane <= LANES && 2 * LANES * (block + 1) <= |input| == |weight|
    ensures |lanes| == LANES
  {
    seq(LANES, l requires 0 <= l < LANES => LaneFold(0, PairDot, input, weight, l, if l < lane then block + 1 else block))
  }

  /** One pair adds the same increment to its lane and to the dot product. */
  lemma LaneFoldStep(input: seq<int>, weight: seq<int>, l: nat, block: nat, k: nat) returns (increment: int)
    requires l < LANES && 2 * LANES * (block + 1) <= |input| == |weight|
    requires k == 2 * LANES * block + 2 * l
    ensures LaneFold(0, PairDot, input, weight, l, block + 1) == LaneFold(0, PairDot, input, weight, l, block) + increment
    ensures Dot(input, weight, k + 2) == Dot(input, weight, k) + increment
  {
    increment := input[k] * weight[k] + input[k + 1] * weight[k + 1];
    assert Dot(input, weight, k + 2) == Dot(input, weight, k + 1) + input[k + 1] * weight[k + 1];
  }

  lemma MixedStep(input: seq<int>, weight: seq<int>, block: nat, lane: nat)
    requires 0 < lane <= LANES && 2 * LANES * (block + 1) <= |input| == |weight|
    ensures Mixed(input, weight, block, lane)
            == Mixed(input, weight, block, lane - 1)[lane - 1 := LaneFold(0, PairDot, input, weight, lane - 1, block + 1)]
  {}

  lemma {:induction false} MixedSum(input: seq<int>, weight: seq<int>, block: nat, lane: nat, base: nat)
    requires lane <= LANES && 2 * LANES * (block + 1) <= |input| == |weight|
    requires base == 2 * LANES * block
    requires Sum(LaneFolds(0, PairDot, input, weight, block)) == Dot(input, weight, base)
    ensures Sum(Mixed(input, weight, block, lane)) == Dot(input, weight, base + 2 * lane)
  {
    if lane == 0 {
      assert Mixed(input, weight, block, 0) == LaneFolds(0, PairDot, input, weight, block);
    } else {
      var k := base + 2 * (lane - 1);
      MixedSum(input, weight, block, lane - 1, base);
      MixedStep(input, weight, block, lane);
      SumUpdate(Mixed(input, weight, block, lane - 1), lane - 1, LaneFold(0, PairDot, input, weight, lane - 1, block + 1));
      var increment := LaneFoldStep(input, weight, lane - 1, block, k);
      assert k + 2 == base + 2 * lane;
    }
  }

  /** In exact arithmetic the lane sums add up to the plain dot product. */
  lemma {:induction false} LaneSum(input: seq<int>, weight: seq<int>, blocks: nat)
    requires 2 * LANES * blocks <= |input| == |weight|
    ensures Sum(LaneFolds(0, PairDot, input, weight, blocks)) == Dot(input, weight, 2 * LANES * blocks)
  {
    if blocks == 0 {
      SumBounds(LaneFolds(0, PairDot, input, weight, 0), 0, 0);
    } else {
      LaneSum(input, weight, blocks - 1);
      MixedSum(input, weight, blocks - 1, LANES, 2 * LANES * (blocks - 1));
      assert Mixed(input, weight, blocks - 1, LANES) == LaneFolds(0, PairDot, input, weight, blocks);
    }
  }

  /** The wave dot product is the dot product. */
  method ExactWave32Dot(input: seq<int>, weight: seq<int>) returns (sum: int)
    requires |input| == |weight| && |input| % (2 * LANES) == 0
    ensures sum == Dot(input, weight, |input|)
  {
    sum := Wave32Dot(0, PairDot, Plus, input, weight);
    var blocks := |input| / (2 * LANES);
    TreeIsSum(LaneFolds(0, PairDot, input, weight, blocks));
    LaneSum(input, weight, blocks);
  }
}
