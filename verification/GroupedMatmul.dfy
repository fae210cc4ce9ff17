/** The tiled gate/up and down kernels of the selected-MoE generator. A launch is a set
    of tile elements, each computed by one lane of one program; the kernel performs them
    in any order. Arithmetic is exact: products and sums are integers, and the rounded
    activation and output endpoints are arbitrary functions. */
module GroupedMatmul {
  import opened Arithmetic
  import opened RouteAlignment
  import opened GroupedLaunch

  const HIDDEN := 2048
  const INTERMEDIATE := 512
  const GATE_UP_ROWS := 1024
  const TOP_K := 8

  /** The tile sizes `configure_shape` accepts. */
  datatype Shape = Shape(blockM: int, gateBlockN: int, downBlockN: int, gateBlockK: int, downBlockK: int, groupM: int)

  predicate Configurable(shape: Shape) {
    && shape.blockM in {16, 32, 64, 128}
    && shape.gateBlockN in {32, 64, 128, 256}
    && shape.downBlockN in {32, 64, 128, 256}
    && shape.gateBlockK in {32, 64, 128}
    && shape.downBlockK in {32, 64, 128}
    && shape.groupM > 0
  }

  // ------------------------------------------------------------------ tile ownership

  /** One lane of one program: program id, row of its tile, column of its tile. */
  type Lane = (int, int, int)

  /** What a matrix launch reads to address its tiles: the sorted routes with their
      block owners, `numM` tile rows, and `numN` tile columns of `width` outputs. */
  datatype Launch = Launch(sorted: seq<int>, owners: seq<int>, routes: int,
                           blockM: int, groupM: int, numM: int, numN: int, width: int)
  {
    predicate Shaped() {
      blockM > 0 && groupM > 0 && numM >= 0 && numN > 0 && width > 0 && numM * blockM <= |sorted|
    }

    ghost predicate Valid(topk: seq<int>) {
      && Shaped()
      && routes == |topk|
      && Aligned(topk, blockM, sorted, owners, numM * blockM)
    }

    function Columns(): int {
      numN * width
    }

    /** The address at which a lane stores, or -1 when its program lies outside the grid or
        its slot holds padding. */
    function Target(lane: Lane): (address: int)
      requires Shaped()
    {
      var (pid, i, h) := lane;
      if 0 <= pid < numM * numN && 0 <= i < blockM && 0 <= h < width then
        var (m, n) := GroupedPid(pid, numM, numN, groupM);
        TileIndex(m, i, numM, blockM);
        var route := sorted[m * blockM + i];
        if 0 <= route < routes then route * Columns() + (n * width + h) else -1
      else
        -1
    }
  }

  /** The lane that computes output column `c` of route `r`. */
  ghost function LaneOf(topk: seq<int>, launch: Launch, r: nat, c: nat): Lane
    requires launch.Valid(topk) && r < |topk| && c < launch.Columns()
  {
    var slot := Slot(topk, launch.blockM, r);
    SlotInRun(topk, launch.blockM, r);
    QuotientBetween(0, slot, launch.numM, launch.blockM);
    QuotientBetween(0, c, launch.numN, launch.width);
    (ProgramOf(slot / launch.blockM, c / launch.width, launch.numM, launch.numN, launch.groupM),
     slot % launch.blockM, c % launch.width)
  }

  /** The lane of (r, c) stores at the address of (r, c). */
  lemma LaneStores(topk: seq<int>, launch: Launch, r: nat, c: nat)
    requires launch.Valid(topk) && r < |topk| && c < launch.Columns()
    ensures launch.Target(LaneOf(topk, launch, r, c)) == r * launch.Columns() + c
  {
    var slot := Slot(topk, launch.blockM, r);
    SlotInRun(topk, launch.blockM, r);
    QuotientBetween(0, slot, launch.numM, launch.blockM);
    QuotientBetween(0, c, launch.numN, launch.width);
    TileHasProgram(slot / launch.blockM, c / launch.width, launch.numM, launch.numN, launch.groupM);
    Division(slot, launch.blockM);
    Division(c, launch.width);
  }

  /** A lane that stores at all stores at the address of a route and column it owns. */
  lemma StoreHasLane(topk: seq<int>, launch: Launch, lane: Lane) returns (r: nat, c: nat)
    requires launch.Valid(topk)
    requires launch.Target(lane) != -1
    ensures r < |topk| && c < launch.Columns()
    ensures launch.Target(lane) == r * launch.Columns() + c
    ensures LaneOf(topk, launch, r, c) == lane
  {
    var (pid, i, h) := lane;
    var (m, n) := GroupedPid(pid, launch.numM, launch.numN, launch.groupM);
    TileIndex(m, i, launch.numM, launch.blockM);
    TileIndex(n, h, launch.numN, launch.width);
    var slot := m * launch.blockM + i;
    r, c := launch.sorted[slot], n * launch.width + h;
    assert Slot(topk, launch.blockM, r) == slot;
    DivModUnique(m, i, launch.blockM);
    DivModUnique(n, h, launch.width);
    ProgramHasTile(pid, launch.numM, launch.numN, launch.groupM);
  }

  /** The lanes of a launch of `programs` programs. */
  function Lanes(launch: Launch, programs: int): set<Lane> {
    set pid: int, i: int, h: int
      | 0 <= pid < programs && 0 <= i < launch.blockM && 0 <= h < launch.width :: (pid, i, h)
  }

  /** Element (r, c) of `out` holds `want` if its lane has run and is untouched if not. */
  ghost predicate Element(topk: seq<int>, launch: Launch, before: seq<int>, out: seq<int>, want: seq<int>,
                          pending: set<Lane>, r: nat, c: nat)
    requires launch.Valid(topk) && r < |topk| && c < launch.Columns()
    requires |before| == |out| == |want|
  {
    var a := r * launch.Columns() + c;
    && 0 <= a < |out|
    && out[a] == if LaneOf(topk, launch, r, c) in pending then before[a] else want[a]
  }

  ghost predicate Filled(topk: seq<int>, launch: Launch, before: seq<int>, out: seq<int>, want: seq<int>, pending: set<Lane>) {
    && launch.Valid(topk)
    && |before| == |out| == |want| == |topk| * launch.Columns()
    && forall r, c :: 0 <= r < |topk| && 0 <= c < launch.Columns() ==>
         Element(topk, launch, before, out, want, pending, r, c)
  }

  /** Each element has exactly one storing lane, so no other lane can touch it. */
  lemma OneStorePerElement(topk: seq<int>, launch: Launch, lane: Lane, r: nat, c: nat)
    requires launch.Valid(topk) && r < |topk| && c < launch.Columns()
    ensures 0 <= r * launch.Columns() + c < |topk| * launch.Columns()
    ensures launch.Target(lane) == r * launch.Columns() + c <==> lane == LaneOf(topk, launch, r, c)
  {
    TileIndex(r, c, |topk|, launch.Columns());
    LaneStores(topk, launch, r, c);
    if launch.Target(lane) == r * launch.Columns() + c {
      var r0, c0 := StoreHasLane(topk, launch, lane);
      DivModUnique(r, c, launch.Columns());
      DivModUnique(r0, c0, launch.Columns());
    }
  }

  /** Running one lane: its store, if it makes one, fills exactly the element it owns. */
  lemma FillLane(topk: seq<int>, launch: Launch, before: seq<int>, out: seq<int>, want: seq<int>,
                 pending: set<Lane>, lane: Lane, target: int, out': seq<int>)
    requires Filled(topk, launch, before, out, want, pending)
    requires target == launch.Target(lane)
    requires target == -1 ==> out' == out
    requires target != -1 ==> 0 <= target < |out| && out' == out[target := want[target]]
    ensures Filled(topk, launch, before, out', want, pending - {lane})
  {
    forall r, c | 0 <= r < |topk| && 0 <= c < launch.Columns()
      ensures Element(topk, launch, before, out', want, pending - {lane}, r, c)
    {
      assert Element(topk, launch, before, out, want, pending, r, c);
      OneStorePerElement(topk, launch, lane, r, c);
    }
  }

  /** Before any lane has run, nothing is filled, and every owning lane is launched. */
  lemma FillStart(topk: seq<int>, launch: Launch, programs: nat, out: seq<int>, want: seq<int>)
    requires launch.Valid(topk) && |out| == |want| == |topk| * launch.Columns()
    requires launch.numM * launch.numN <= programs
    ensures Filled(topk, launch, out, out, want, Lanes(launch, programs))
  {
    forall r, c | 0 <= r < |topk| && 0 <= c < launch.Columns()
      ensures Element(topk, launch, out, out, want, Lanes(launch, programs), r, c)
    {
      TileIndex(r, c, |topk|, launch.Columns());
      LaneStores(topk, launch, r, c);
    }
  }

  /** When all lanes have run, the output is the wanted one. */
  lemma FillEnd(topk: seq<int>, launch: Launch, before: seq<int>, out: seq<int>, want: seq<int>)
    requires Filled(topk, launch, before, out, want, {})
    ensures out == want
  {
    var columns := launch.Columns();
    MulMonotone(1, launch.numN, launch.width);
    forall a | 0 <= a < |out|
      ensures out[a] == want[a]
    {
      Division(a, columns);
      QuotientBetween(0, a, |topk|, columns);
      assert Element(topk, launch, before, out, want, {}, a / columns, a % columns);
    }
  }

  // ------------------------------------------------------------------- dot products

  /** The sum of `n` products starting at `a[ao]` and `b[bo]`. */
  function Dot(a: seq<int>, ao: nat, b: seq<int>, bo: nat, n: nat): int
    requires ao + n <= |a| && bo + n <= |b|
  {
    if n == 0 then 0 else Dot(a, ao, b, bo, n - 1) + a[ao + n - 1] * b[bo + n - 1]
  }

  lemma {:induction false} DotSplit(a: seq<int>, ao: nat, b: seq<int>, bo: nat, n: nat, k: nat)
    requires ao + n + k <= |a| && bo + n + k <= |b|
    ensures Dot(a, ao, b, bo, n + k) == Dot(a, ao, b, bo, n) + Dot(a, ao + n, b, bo + n, k)
  {
    if k > 0 {
      DotSplit(a, ao, b, bo, n, k - 1);
    }
  }

  /** The accumulator loop over K blocks, advancing both pointers by `blockK`. */
  method BlockedDot(a: seq<int>, ao: nat, b: seq<int>, bo: nat, n: nat, blockK: nat) returns (accumulator: int)
    requires ao + n <= |a| && bo + n <= |b|
    requires blockK > 0 && n % blockK == 0
    ensures accumulator == Dot(a, ao, b, bo, n)
  {
    accumulator := 0;
    var left, right := ao, bo;
    ghost var blocks := n / blockK;
    Division(n, blockK);
    for block := 0 to n / blockK
      invariant left == ao + block * blockK && right == bo + block * blockK && 0 <= block * blockK <= n
      invariant accumulator == Dot(a, ao, b, bo, block * blockK)
    {
      TileIndex(block, blockK - 1, blocks, blockK);
      assert (block + 1) * blockK == block * blockK + blockK;
      DotSplit(a, ao, b, bo, block * blockK, blockK);
      accumulator := accumulator + Dot(a, left, b, right, blockK);
      left, right := left + blockK, right + blockK;
    }
  }

  // ---------------------------------------------------------------- naive computation

  /** One row of weights of one expert. */
  function GateUpRow(expert: int, row: int): int {
    (expert * GATE_UP_ROWS + row) * HIDDEN
  }

  function DownRow(expert: int, row: int): int {
    (expert * HIDDEN + row) * INTERMEDIATE
  }

  datatype Weights = Weights(gateUp: seq<int>, down: seq<int>)

  ghost predicate ValidData(topk: seq<int>, input: seq<int>, weights: Weights) {
    && |topk| % TOP_K == 0
    && |input| == |topk| / TOP_K * HIDDEN
    && |weights.gateUp| == EXPERTS * GATE_UP_ROWS * HIDDEN
    && |weights.down| == EXPERTS * HIDDEN * INTERMEDIATE
    && ValidExperts(topk)
  }

  /** Activation `j` of route `r`: the endpoint of gate row `j` and up row `j + 512` of the
      route's own expert applied to the route's token. */
  ghost function NaiveActivation(topk: seq<int>, input: seq<int>, weights: Weights, act: (int, int) -> int, r: nat, j: nat): int
    requires ValidData(topk, input, weights) && r < |topk| && j < INTERMEDIATE
  {
    act(Dot(input, r / TOP_K * HIDDEN, weights.gateUp, GateUpRow(topk[r], j), HIDDEN),
        Dot(input, r / TOP_K * HIDDEN, weights.gateUp, GateUpRow(topk[r], j + INTERMEDIATE), HIDDEN))
  }

  /** Every route's activations, in route order. */
  ghost function NaiveActivations(topk: seq<int>, input: seq<int>, weights: Weights, act: (int, int) -> int): seq<int>
    requires ValidData(topk, input, weights)
  {
    seq(|topk| * INTERMEDIATE, a requires 0 <= a < |topk| * INTERMEDIATE =>
      NaiveActivation(topk, input, weights, act, a / INTERMEDIATE, a % INTERMEDIATE))
  }

  lemma NaiveActivationAt(topk: seq<int>, input: seq<int>, weights: Weights, act: (int, int) -> int, r: nat, j: nat)
    requires ValidData(topk, input, weights) && r < |topk| && j < INTERMEDIATE
    ensures 0 <= r * INTERMEDIATE + j < |topk| * INTERMEDIATE
    ensures NaiveActivations(topk, input, weights, act)[r * INTERMEDIATE + j]
            == NaiveActivation(topk, input, weights, act, r, j)
  {
    var a := r * INTERMEDIATE + j;
    assert a / INTERMEDIATE == r && a % INTERMEDIATE == j;
  }

  /** Every route's outputs: the down rows of its own expert applied to its activations. */
  ghost function NaiveOutputs(topk: seq<int>, activated: seq<int>, weights: Weights, endpoint: int -> int): seq<int>
    requires ValidExperts(topk) && |activated| == |topk| * INTERMEDIATE
    requires |weights.down| == EXPERTS * HIDDEN * INTERMEDIATE
  {
    seq(|topk| * HIDDEN, a requires 0 <= a < |topk| * HIDDEN =>
      endpoint(Dot(activated, a / HIDDEN * INTERMEDIATE, weights.down, DownRow(topk[a / HIDDEN], a % HIDDEN), INTERMEDIATE)))
  }

  lemma NaiveOutputAt(topk: seq<int>, activated: seq<int>, weights: Weights, endpoint: int -> int, r: nat, c: nat)
    requires ValidExperts(topk) && |activated| == |topk| * INTERMEDIATE
    requires |weights.down| == EXPERTS * HIDDEN * INTERMEDIATE
    requires r < |topk| && c < HIDDEN
    ensures 0 <= r * HIDDEN + c < |topk| * HIDDEN
    ensures NaiveOutputs(topk, activated, weights, endpoint)[r * HIDDEN + c]
            == endpoint(Dot(activated, r * INTERMEDIATE, weights.down, DownRow(topk[r], c), INTERMEDIATE))
  {
    var a := r * HIDDEN + c;
    assert a / HIDDEN == r && a % HIDDEN == c;
  }

  // -------------------------------------------------------------------- the kernels

  /** The values a storing lane reads: its route, its block's owner and its column. */
  lemma LaneReads(topk: seq<int>, launch: Launch, pid: int, i: int, h: int)
    requires launch.Valid(topk) && launch.Target((pid, i, h)) != -1
    ensures var (m, n) := GroupedPid(pid, launch.numM, launch.numN, launch.groupM);
            && 0 <= m * launch.blockM + i < |launch.sorted|
            && 0 <= m < |launch.owners|
            && var r := launch.sorted[m * launch.blockM + i];
            && 0 <= r < |topk|
            && launch.owners[m] == topk[r]
            && 0 <= n * launch.width + h < launch.Columns()
            && launch.Target((pid, i, h)) == r * launch.Columns() + (n * launch.width + h)
  {
    var (m, n) := GroupedPid(pid, launch.numM, launch.numN, launch.groupM);
    TileIndex(m, i, launch.numM, launch.blockM);
    TileIndex(n, h, launch.numN, launch.width);
    var r := launch.sorted[m * launch.blockM + i];
    DivModUnique(m, i, launch.blockM);
    SlotOwner(topk, launch.blockM, launch.sorted, launch.owners, launch.numM * launch.blockM, r);
  }

  /** The weight row that lane `lane` of tile column `n` reads: lanes come in pairs, the
      even one on the gate half and the odd one on the up half of the expert's rows. */
  function WeightRow(n: int, lane: int, width: int): int {
    n * width + lane / 2 + lane % 2 * INTERMEDIATE
  }

  /** One output element of `_gate_up_silu_kernel`: two lanes accumulate over K blocks. */
  method GateUpElement(ghost topk: seq<int>, input: seq<int>, weights: Weights, act: (int, int) -> int, blockK: nat,
                       route: nat, expert: nat, n: nat, h: nat, width: nat)
    returns (output: int)
    requires ValidData(topk, input, weights) && blockK > 0 && HIDDEN % blockK == 0
    requires route < |topk| && expert == topk[route] && n * width + h < INTERMEDIATE
    ensures output == NaiveActivation(topk, input, weights, act, route, n * width + h)
  {
    var token := route / TOP_K;
    var gateRow, upRow := WeightRow(n, 2 * h, width), WeightRow(n, 2 * h + 1, width);
    assert gateRow == n * width + h && upRow == gateRow + INTERMEDIATE;
    var gate := BlockedDot(input, token * HIDDEN, weights.gateUp, GateUpRow(expert, gateRow), HIDDEN, blockK);
    var up := BlockedDot(input, token * HIDDEN, weights.gateUp, GateUpRow(expert, upRow), HIDDEN, blockK);
    output := act(gate, up);
  }

  /** One output element of `_down_kernel`. */
  method DownElement(ghost topk: seq<int>, activated: seq<int>, weights: Weights, endpoint: int -> int, blockK: nat,
                     route: nat, expert: nat, column: nat)
    returns (output: int)
    requires ValidExperts(topk) && |activated| == |topk| * INTERMEDIATE
    requires |weights.down| == EXPERTS * HIDDEN * INTERMEDIATE
    requires blockK > 0 && INTERMEDIATE % blockK == 0
    requires route < |topk| && expert == topk[route] && column < HIDDEN
    ensures output == endpoint(Dot(activated, route * INTERMEDIATE, weights.down, DownRow(topk[route], column), INTERMEDIATE))
  {
    var dot := BlockedDot(activated, route * INTERMEDIATE, weights.down, DownRow(expert, column), INTERMEDIATE, blockK);
    output := endpoint(dot);
  }

  class MatrixBuffers {
    var activated: seq<int>
    var routeOutputs: seq<int>

    /** One lane of `_gate_up_silu_kernel`. */
    method GateUpLane(ghost topk: seq<int>, launch: Launch, input: seq<int>, weights: Weights, act: (int, int) -> int,
                      blockK: nat, ghost before: seq<int>, ghost pending: set<Lane>, lane: Lane)
      requires ValidData(topk, input, weights) && launch.Valid(topk)
      requires launch.Columns() == INTERMEDIATE && blockK > 0 && HIDDEN % blockK == 0
      requires Filled(topk, launch, before, activated, NaiveActivations(topk, input, weights, act), pending)
      modifies this`activated
      ensures Filled(topk, launch, before, activated, NaiveActivations(topk, input, weights, act), pending - {lane})
    {
      ghost var out, want, target := activated, NaiveActivations(topk, input, weights, act), launch.Target(lane);
      if launch.Target(lane) != -1 {
        var (pid, i, h) := lane;
        LaneReads(topk, launch, pid, i, h);
        var (m, n) := GroupedPid(pid, launch.numM, launch.numN, launch.groupM);
        var route := launch.sorted[m * launch.blockM + i];
        var output := GateUpElement(topk, input, weights, act, blockK, route, launch.owners[m], n, h, launch.width);
        NaiveActivationAt(topk, input, weights, act, route, n * launch.width + h);
        activated := activated[route * INTERMEDIATE + (n * launch.width + h) := output];
      }
      FillLane(topk, launch, before, out, want, pending, lane, target, activated);
    }

    /** `_gate_up_silu_kernel` over a launch of `programs` programs. */
    method GateUpSiluKernel(ghost topk: seq<int>, launch: Launch, programs: nat, input: seq<int>, weights: Weights,
                            act: (int, int) -> int, blockK: nat)
      requires ValidData(topk, input, weights) && launch.Valid(topk)
      requires launch.Columns() == INTERMEDIATE && blockK > 0 && HIDDEN % blockK == 0
      requires launch.numM * launch.numN <= programs
      requires |activated| == |topk| * INTERMEDIATE
      modifies this`activated
      ensures activated == NaiveActivations(topk, input, weights, act)
    {
      ghost var before, want := activated, NaiveActivations(topk, input, weights, act);
      var pending := Lanes(launch, programs);
      FillStart(topk, launch, programs, activated, want);
      while pending != {}
        invariant Filled(topk, launch, before, activated, want, pending)
        decreases pending
      {
        var lane :| lane in pending;
        GateUpLane(topk, launch, input, weights, act, blockK, before, pending, lane);
        pending := pending - {lane};
      }
      FillEnd(topk, launch, before, activated, want);
    }

    /** One lane of `_down_kernel`. */
    method DownLane(ghost topk: seq<int>, launch: Launch, weights: Weights, endpoint: int -> int,
                    blockK: nat, ghost before: seq<int>, ghost pending: set<Lane>, lane: Lane)
      requires launch.Valid(topk) && |activated| == |topk| * INTERMEDIATE
      requires |weights.down| == EXPERTS * HIDDEN * INTERMEDIATE
      requires launch.Columns() == HIDDEN && blockK > 0 && INTERMEDIATE % blockK == 0
      requires Filled(topk, launch, before, routeOutputs, NaiveOutputs(topk, activated, weights, endpoint), pending)
      modifies this`routeOutputs
      ensures Filled(topk, launch, before, routeOutputs, NaiveOutputs(topk, activated, weights, endpoint), pending - {lane})
    {
      ghost var out, want, target := routeOutputs, NaiveOutputs(topk, activated, weights, endpoint), launch.Target(lane);
      if launch.Target(lane) != -1 {
        var (pid, i, h) := lane;
        LaneReads(topk, launch, pid, i, h);
        var (m, n) := GroupedPid(pid, launch.numM, launch.numN, launch.groupM);
        var route, column := launch.sorted[m * launch.blockM + i], n * launch.width + h;
        var output := DownElement(topk, activated, weights, endpoint, blockK, route, launch.owners[m], column);
        NaiveOutputAt(topk, activated, weights, endpoint, route, column);
        routeOutputs := routeOutputs[route * HIDDEN + column := output];
      }
      FillLane(topk, launch, before, out, want, pending, lane, target, routeOutputs);
    }

    /** `_down_kernel` over a launch of `programs` programs. */
    method DownKernel(ghost topk: seq<int>, launch: Launch, programs: nat, weights: Weights,
                      endpoint: int -> int, blockK: nat)
      requires launch.Valid(topk) && |activated| == |topk| * INTERMEDIATE
      requires |weights.down| == EXPERTS * HIDDEN * INTERMEDIATE
      requires launch.Columns() == HIDDEN && blockK > 0 && INTERMEDIATE % blockK == 0
      requires launch.numM * launch.numN <= programs
      requires |routeOutputs| == |topk| * HIDDEN
      modifies this`routeOutputs
      ensures routeOutputs == NaiveOutputs(topk, activated, weights, endpoint)
    {
      ghost var before, want := routeOutputs, NaiveOutputs(topk, activated, weights, endpoint);
      var pending := Lanes(launch, programs);
      FillStart(topk, launch, programs, routeOutputs, want);
      while pending != {}
        invariant Filled(topk, launch, before, routeOutputs, want, pending)
        decreases pending
      {
        var lane :| lane in pending;
        DownLane(topk, launch, weights, endpoint, blockK, before, pending, lane);
        pending := pending - {lane};
      }
      FillEnd(topk, launch, before, routeOutputs, want);
    }
  }

  /** A launch over aligned routes is valid, and the compiled grid of MAX_ROUTE_BLOCKS tile
      rows covers all of its tiles. */
  lemma LaunchCovers(topk: seq<int>, launch: Launch, total: int)
    requires launch.blockM > 0 && launch.groupM > 0 && launch.numN > 0 && launch.width > 0
    requires Aligned(topk, launch.blockM, launch.sorted, launch.owners, total)
    requires launch.routes == |topk| && launch.numM == Blocks(total, launch.blockM)
    ensures launch.Valid(topk)
    ensures launch.numM * launch.numN <= MaxRouteBlocks(|topk|, launch.blockM) * launch.numN
  {
    FirstBlockMonotone(topk, launch.blockM, 0, EXPERTS);
    DivModUnique(FirstBlock(topk, launch.blockM, EXPERTS), launch.blockM - 1, launch.blockM);
    PaddedLengthFits(topk, launch.blockM);
    MulMonotone(launch.numM, MaxRouteBlocks(|topk|, launch.blockM), launch.numN);
  }

  /** Every accepted shape tiles the 512 activation and 2048 output columns exactly. */
  lemma ShapeTiles(shape: Shape)
    requires Configurable(shape)
    ensures shape.blockM > 0 && shape.gateBlockN / 2 > 0 && shape.downBlockN > 0
    ensures GATE_UP_ROWS / shape.gateBlockN > 0 && HIDDEN / shape.downBlockN > 0
    ensures GATE_UP_ROWS / shape.gateBlockN * (shape.gateBlockN / 2) == INTERMEDIATE
    ensures HIDDEN / shape.downBlockN * shape.downBlockN == HIDDEN
    ensures shape.gateBlockK > 0 && HIDDEN % shape.gateBlockK == 0
    ensures shape.downBlockK > 0 && INTERMEDIATE % shape.downBlockK == 0
  {}

  /** The two matrix kernels on aligned routes, launched with the compiled grids. */
  method RunMatrices(ghost topk: seq<int>, routes: nat, sorted: seq<int>, owners: seq<int>, total: int, shape: Shape,
                     input: seq<int>, weights: Weights, act: (int, int) -> int, endpoint: int -> int)
    returns (outputs: seq<int>)
    requires Configurable(shape) && ValidData(topk, input, weights) && routes == |topk|
    requires Aligned(topk, shape.blockM, sorted, owners, total)
    ensures outputs == NaiveOutputs(topk, NaiveActivations(topk, input, weights, act), weights, endpoint)
  {
    var matrix := new MatrixBuffers;
    matrix.activated := seq(routes * INTERMEDIATE, _ => 0);
    matrix.routeOutputs := seq(routes * HIDDEN, _ => 0);
    LaunchGateUp(matrix, topk, routes, sorted, owners, total, shape, input, weights, act);
    LaunchDown(matrix, topk, routes, sorted, owners, total, shape, weights, endpoint);
    outputs := matrix.routeOutputs;
  }

  method LaunchGateUp(matrix: MatrixBuffers, ghost topk: seq<int>, routes: nat, sorted: seq<int>, owners: seq<int>, total: int,
                      shape: Shape, input: seq<int>, weights: Weights, act: (int, int) -> int)
    requires Configurable(shape) && ValidData(topk, input, weights) && routes == |topk|
    requires Aligned(topk, shape.blockM, sorted, owners, total) && |matrix.activated| == |topk| * INTERMEDIATE
    modifies matrix`activated
    ensures matrix.activated == NaiveActivations(topk, input, weights, act)
  {
    ShapeTiles(shape);
    var gate := Launch(sorted, owners, routes, shape.blockM, shape.groupM, Blocks(total, shape.blockM),
                       GATE_UP_ROWS / shape.gateBlockN, shape.gateBlockN / 2);
    LaunchCovers(topk, gate, total);
    var programs := MaxRouteBlocks(routes, shape.blockM) * gate.numN;
    matrix.GateUpSiluKernel(topk, gate, programs, input, weights, act, shape.gateBlockK);
  }

  method LaunchDown(matrix: MatrixBuffers, ghost topk: seq<int>, routes: nat, sorted: seq<int>, owners: seq<int>, total: int,
                    shape: Shape, weights: Weights, endpoint: int -> int)
    requires Configurable(shape) && |weights.down| == EXPERTS * HIDDEN * INTERMEDIATE && routes == |topk|
    requires Aligned(topk, shape.blockM, sorted, owners, total)
    requires |matrix.activated| == |topk| * INTERMEDIATE && |matrix.routeOutputs| == |topk| * HIDDEN
    modifies matrix`routeOutputs
    ensures matrix.routeOutputs == NaiveOutputs(topk, matrix.activated, weights, endpoint)
  {
    ShapeTiles(shape);
    var down := Launch(sorted, owners, routes, shape.blockM, shape.groupM, Blocks(total, shape.blockM),
                       HIDDEN / shape.downBlockN, shape.downBlockN);
    LaunchCovers(topk, down, total);
    var programs := MaxRouteBlocks(routes, shape.blockM) * down.numN;
    matrix.DownKernel(topk, down, programs, weights, endpoint, shape.downBlockK);
  }

  /** The selected-MoE launch: route alignment followed by the two matrix kernels equals,
      for every configurable shape and every order of program steps, multiplying each
      route by the rows of its own expert. */
  method SelectedMoe(topk: seq<int>, sortPrograms: nat, shape: Shape, input: seq<int>, weights: Weights,
                     act: (int, int) -> int, endpoint: int -> int)
    returns (outputs: seq<int>)
    requires Configurable(shape) && ValidRoutes(topk, sortPrograms) && ValidData(topk, input, weights)
    ensures outputs == NaiveOutputs(topk, NaiveActivations(topk, input, weights, act), weights, endpoint)
  {
    var routing := new RoutingBuffers();
    routing.AlignRoutes(topk, sortPrograms, shape.blockM);
    outputs := RunMatrices(topk, |topk|, routing.sortedRouteIds, routing.blockExpertIds, routing.totalPostPad,
                           shape, input, weights, act, endpoint);
  }
}
