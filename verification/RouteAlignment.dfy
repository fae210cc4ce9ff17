/** The four routing kernels of the selected-MoE generator: a parallel counting
    sort of routes by expert, with every expert's run padded to a multiple of the
    block height. Each kernel is a loop that, while some program is unfinished,
    picks any unfinished program and performs its next memory operation, so its
    postcondition holds under every interleaving. */
module RouteAlignment {
  import opened Arithmetic

  const EXPERTS := 256
  const ROUTES_PER_PROGRAM := 256

  // ---------------------------------------------------------------- specification

  /** `topk_ids`: one expert per route, 256 routes per sorting program. */
  ghost predicate ValidRoutes(topk: seq<int>, programs: nat) {
    && |topk| == programs * ROUTES_PER_PROGRAM
    && ValidExperts(topk)
  }

  ghost predicate ValidExperts(topk: seq<int>) {
    forall r :: 0 <= r < |topk| ==> 0 <= topk[r] < EXPERTS
  }

  /** Number of routes in `topk[lo..hi]` sent to expert `e`. */
  ghost function Count(topk: seq<int>, lo: nat, hi: nat, e: int): nat
    requires hi <= |topk|
  {
    if hi <= lo then 0
    else Count(topk, lo, hi - 1, e) + (if topk[hi - 1] == e then 1 else 0)
  }

  lemma {:induction false} CountSplit(topk: seq<int>, lo: nat, mid: nat, hi: nat, e: int)
    requires lo <= mid <= hi <= |topk|
    ensures Count(topk, lo, hi, e) == Count(topk, lo, mid, e) + Count(topk, mid, hi, e)
  {
    if mid < hi {
      CountSplit(topk, lo, mid, hi - 1, e);
    }
  }

  /** Blocks of `blockM` slots that hold `count` routes. */
  function Blocks(count: int, blockM: int): int
    requires blockM > 0
  {
    (count + blockM - 1) / blockM
  }

  /** First block of expert `e`: all blocks of the experts before it. */
  ghost function FirstBlock(topk: seq<int>, blockM: int, e: nat): int
    requires blockM > 0
  {
    if e == 0 then 0
    else FirstBlock(topk, blockM, e - 1) + Blocks(Count(topk, 0, |topk|, e - 1), blockM)
  }

  /** First sorted slot of expert `e`. */
  ghost function Begin(topk: seq<int>, blockM: int, e: nat): int
    requires blockM > 0
  {
    FirstBlock(topk, blockM, e) * blockM
  }

  /** The slot of route `r` in a stable sort by expert with padded runs: its expert's
      first slot plus the number of earlier routes of that expert. */
  ghost function Slot(topk: seq<int>, blockM: int, r: nat): int
    requires blockM > 0 && r < |topk| && ValidExperts(topk)
  {
    Begin(topk, blockM, topk[r]) + Count(topk, 0, r, topk[r])
  }

  lemma BlocksBounds(count: int, blockM: int)
    requires blockM > 0 && count >= 0
    ensures 0 <= Blocks(count, blockM)
    ensures count <= Blocks(count, blockM) * blockM <= count + blockM - 1
  {
    var q := Blocks(count, blockM);
    assert count + blockM - 1 == q * blockM + (count + blockM - 1) % blockM;
    if q < 0 {
      MulMonotone(q, -1, blockM);
    }
  }

  lemma {:induction false} FirstBlockMonotone(topk: seq<int>, blockM: int, e: nat, f: nat)
    requires blockM > 0 && e <= f
    ensures 0 <= FirstBlock(topk, blockM, e) <= FirstBlock(topk, blockM, f)
  {
    if e < f {
      FirstBlockMonotone(topk, blockM, e, f - 1);
      BlocksBounds(Count(topk, 0, |topk|, f - 1), blockM);
    } else if e > 0 {
      FirstBlockMonotone(topk, blockM, e - 1, e - 1);
      BlocksBounds(Count(topk, 0, |topk|, e - 1), blockM);
    }
  }

  /** An expert's run starts at its first block and holds all its routes. */
  lemma RunFits(topk: seq<int>, blockM: int, e: nat)
    requires blockM > 0
    ensures 0 <= Begin(topk, blockM, e)
    ensures Begin(topk, blockM, e) + Count(topk, 0, |topk|, e) <= Begin(topk, blockM, e + 1)
  {
    FirstBlockMonotone(topk, blockM, e, e);
    var loads := Blocks(Count(topk, 0, |topk|, e), blockM);
    BlocksBounds(Count(topk, 0, |topk|, e), blockM);
    assert (FirstBlock(topk, blockM, e) + loads) * blockM == Begin(topk, blockM, e) + loads * blockM;
  }

  lemma BeginMonotone(topk: seq<int>, blockM: int, e: nat, f: nat)
    requires blockM > 0 && e <= f
    ensures Begin(topk, blockM, e) <= Begin(topk, blockM, f)
  {
    FirstBlockMonotone(topk, blockM, e, f);
    var d := FirstBlock(topk, blockM, f) - FirstBlock(topk, blockM, e);
    assert Begin(topk, blockM, f) == Begin(topk, blockM, e) + d * blockM;
  }

  /** Every slot lies among the first slots of its own expert's run. */
  lemma SlotInRun(topk: seq<int>, blockM: int, r: nat)
    requires blockM > 0 && r < |topk| && ValidExperts(topk)
    ensures 0 <= Begin(topk, blockM, topk[r]) <= Slot(topk, blockM, r)
    ensures Slot(topk, blockM, r) < Begin(topk, blockM, topk[r]) + Count(topk, 0, |topk|, topk[r])
    ensures Slot(topk, blockM, r) < Begin(topk, blockM, topk[r] + 1) <= Begin(topk, blockM, EXPERTS)
  {
    CountSplit(topk, 0, r + 1, |topk|, topk[r]);
    RunFits(topk, blockM, topk[r]);
    BeginMonotone(topk, blockM, topk[r] + 1, EXPERTS);
  }

  /** Two routes of one expert are as far apart as the number of its routes from the
      first up to the second: the sort is stable and has no gaps inside a run. */
  lemma SlotStable(topk: seq<int>, blockM: int, r: nat, s: nat)
    requires blockM > 0 && r < s < |topk| && ValidExperts(topk) && topk[r] == topk[s]
    ensures Slot(topk, blockM, s) - Slot(topk, blockM, r) == Count(topk, r, s, topk[r]) >= 1
  {
    CountSplit(topk, 0, r, s, topk[r]);
    CountSplit(topk, r, r + 1, s, topk[r]);
  }

  /** No two routes share a slot. */
  lemma SlotInjective(topk: seq<int>, blockM: int, r: nat, s: nat)
    requires blockM > 0 && r < |topk| && s < |topk| && r != s && ValidExperts(topk)
    ensures Slot(topk, blockM, r) != Slot(topk, blockM, s)
  {
    if topk[r] == topk[s] {
      if r < s { SlotStable(topk, blockM, r, s); } else { SlotStable(topk, blockM, s, r); }
    } else {
      SlotInRun(topk, blockM, r);
      SlotInRun(topk, blockM, s);
      if topk[r] < topk[s] {
        BeginMonotone(topk, blockM, topk[r] + 1, topk[s]);
      } else {
        BeginMonotone(topk, blockM, topk[s] + 1, topk[r]);
      }
    }
  }

  /** The slots a launch allocates, from `configure_shape`. */
  function MaxSortedRoutes(routes: int, blockM: int): int {
    routes + EXPERTS * blockM - 8
  }

  function MaxRouteBlocks(routes: int, blockM: int): int
    requires blockM > 0
  {
    (MaxSortedRoutes(routes, blockM) + blockM - 1) / blockM
  }

  /** The sum of the loads of the first `k` experts. */
  ghost function LoadSum(topk: seq<int>, hi: nat, k: nat): nat
    requires hi <= |topk|
  {
    if k == 0 then 0 else LoadSum(topk, hi, k - 1) + Count(topk, 0, hi, k - 1)
  }

  /** Each route is counted for exactly one expert. */
  lemma {:induction false} LoadSumStep(topk: seq<int>, hi: nat, k: nat)
    requires hi < |topk|
    ensures LoadSum(topk, hi + 1, k) == LoadSum(topk, hi, k) + (if 0 <= topk[hi] < k then 1 else 0)
  {
    if k > 0 {
      LoadSumStep(topk, hi, k - 1);
    }
  }

  lemma {:induction false} LoadSumTotal(topk: seq<int>, hi: nat)
    requires hi <= |topk| && ValidExperts(topk)
    ensures LoadSum(topk, hi, EXPERTS) == hi
  {
    if hi == 0 {
      LoadSumZero(topk, EXPERTS);
    } else {
      LoadSumTotal(topk, hi - 1);
      LoadSumStep(topk, hi - 1, EXPERTS);
    }
  }

  lemma {:induction false} LoadSumZero(topk: seq<int>, k: nat)
    ensures LoadSum(topk, 0, k) == 0
  {
    if k > 0 {
      LoadSumZero(topk, k - 1);
    }
  }

  lemma {:induction false} PaddedLength(topk: seq<int>, blockM: int, k: nat)
    requires blockM > 0
    ensures LoadSum(topk, |topk|, k) <= Begin(topk, blockM, k) <= LoadSum(topk, |topk|, k) + k * (blockM - 1)
  {
    if k > 0 {
      PaddedLength(topk, blockM, k - 1);
      var count := Count(topk, 0, |topk|, k - 1);
      BlocksBounds(count, blockM);
      Distributes(FirstBlock(topk, blockM, k - 1), Blocks(count, blockM), blockM);
      Distributes(k - 1, 1, blockM - 1);
    }
  }

  /** The padded length holds all routes, is a whole number of blocks, and fits both the
      allocation and the launched grid of route blocks. */
  lemma PaddedLengthFits(topk: seq<int>, blockM: int)
    requires blockM > 0 && ValidExperts(topk)
    ensures |topk| <= Begin(topk, blockM, EXPERTS) <= MaxSortedRoutes(|topk|, blockM)
    ensures Begin(topk, blockM, EXPERTS) == FirstBlock(topk, blockM, EXPERTS) * blockM
    ensures FirstBlock(topk, blockM, EXPERTS) <= MaxRouteBlocks(|topk|, blockM)
  {
    LoadSumTotal(topk, |topk|);
    PaddedLength(topk, blockM, EXPERTS);
    QuotientAtLeast(FirstBlock(topk, blockM, EXPERTS), MaxSortedRoutes(|topk|, blockM) + blockM - 1, blockM);
  }

  // ------------------------------------------------------------- program-local state

  /** Offset of expert `e` in row `row` of `token_counts`. */
  function Cell(row: int, e: int): int {
    row * EXPERTS + e
  }

  /** First route of sorting program `p`. */
  function Source(p: int): int {
    p * ROUTES_PER_PROGRAM
  }

  /** Registers of one program: `done` loop iterations are finished, `phase` memory
      operations of the next one are, and `held` is the value it carries. */
  datatype Local = Local(done: int, phase: int, held: int)

  /** Program `p` still has routes to process. */
  predicate RoutePending(locals: seq<Local>, p: int) {
    0 <= p < |locals| && locals[p].done < ROUTES_PER_PROGRAM
  }

  /** Memory operations done by all programs, `ops` per iteration. */
  ghost function Work(locals: seq<Local>, ops: int): int {
    if |locals| == 0 then 0
    else Work(locals[..|locals| - 1], ops) + ops * locals[|locals| - 1].done + locals[|locals| - 1].phase
  }

  lemma {:induction false} WorkUpdate(locals: seq<Local>, ops: int, p: nat, local: Local)
    requires p < |locals|
    ensures Work(locals[p := local], ops)
            == Work(locals, ops) + ops * local.done - ops * locals[p].done + local.phase - locals[p].phase
  {
    var n := |locals| - 1;
    if p == n {
      assert locals[p := local][..n] == locals[..n];
    } else {
      assert locals[p := local][..n] == locals[..n][p := local];
      WorkUpdate(locals[..n], ops, p, local);
    }
  }

  lemma {:induction false} WorkBound(locals: seq<Local>, ops: int, limit: int)
    requires forall p :: 0 <= p < |locals| ==> ops * locals[p].done + locals[p].phase <= limit
    ensures Work(locals, ops) <= limit * |locals|
  {
    if |locals| != 0 {
      WorkBound(locals[..|locals| - 1], ops, limit);
    }
  }

  /** Row `row` of `token_counts` holds the per-expert counts of `topk[lo..hi]`. */
  ghost predicate RowCounts(topk: seq<int>, counts: seq<int>, row: nat, lo: nat, hi: nat) {
    && Cell(row + 1, 0) <= |counts|
    && hi <= |topk|
    && forall e :: 0 <= e < EXPERTS ==> counts[Cell(row, e)] == Count(topk, lo, hi, e)
  }

  /** Incrementing the counter of the next route's expert extends the counted range. */
  lemma RowIncrement(topk: seq<int>, counts: seq<int>, row: nat, lo: nat, hi: nat)
    requires RowCounts(topk, counts, row, lo, hi)
    requires lo <= hi < |topk| && 0 <= topk[hi] < EXPERTS
    ensures RowCounts(topk, counts[Cell(row, topk[hi]) := counts[Cell(row, topk[hi])] + 1], row, lo, hi + 1)
  {
    var counts' := counts[Cell(row, topk[hi]) := counts[Cell(row, topk[hi])] + 1];
    forall e | 0 <= e < EXPERTS
      ensures counts'[Cell(row, e)] == Count(topk, lo, hi + 1, e)
    {}
  }

  /** A store into one row leaves every other row alone. */
  lemma RowFrame(topk: seq<int>, counts: seq<int>, row: nat, e: int, x: int, other: nat, lo: nat, hi: nat)
    requires RowCounts(topk, counts, other, lo, hi)
    requires other != row && 0 <= e < EXPERTS && Cell(row, e) < |counts|
    ensures RowCounts(topk, counts[Cell(row, e) := x], other, lo, hi)
  {}

  // --------------------------------------------------------------- counting kernel

  ghost predicate CountingProgram(topk: seq<int>, counts: seq<int>, p: nat, local: Local)
    requires Source(p + 1) <= |topk| && ValidExperts(topk)
  {
    && 0 <= local.done <= ROUTES_PER_PROGRAM
    && 0 <= local.phase <= 1
    && RowCounts(topk, counts, p + 1, Source(p), Source(p) + local.done)
    && (local.phase == 1 ==>
          && local.done < ROUTES_PER_PROGRAM
          && local.held == counts[Cell(p + 1, topk[Source(p) + local.done])])
  }

  ghost predicate Counting(topk: seq<int>, counts: seq<int>, locals: seq<Local>) {
    && ValidRoutes(topk, |locals|)
    && |counts| == Cell(|locals| + 1, 0)
    && RowCounts(topk, counts, 0, 0, 0)
    && (forall p :: 0 <= p < |locals| ==> CountingProgram(topk, counts, p, locals[p]))
  }

  lemma CountingLoad(topk: seq<int>, counts: seq<int>, locals: seq<Local>, p: nat)
    requires Counting(topk, counts, locals)
    requires p < |locals| && locals[p].phase == 0 && locals[p].done < ROUTES_PER_PROGRAM
    ensures var done := locals[p].done;
            Counting(topk, counts, locals[p := Local(done, 1, counts[Cell(p + 1, topk[Source(p) + done])])])
  {
    var done := locals[p].done;
    var locals' := locals[p := Local(done, 1, counts[Cell(p + 1, topk[Source(p) + done])])];
    forall q | 0 <= q < |locals'|
      ensures CountingProgram(topk, counts, q, locals'[q])
    {
      assert CountingProgram(topk, counts, q, locals[q]);
    }
  }

  lemma CountWorkBound(topk: seq<int>, counts: seq<int>, locals: seq<Local>)
    requires Counting(topk, counts, locals)
    ensures Work(locals, 2) <= 2 * ROUTES_PER_PROGRAM * |locals|
  {
    forall p | 0 <= p < |locals|
      ensures 2 * locals[p].done + locals[p].phase <= 2 * ROUTES_PER_PROGRAM
    {
      assert CountingProgram(topk, counts, p, locals[p]);
    }
    WorkBound(locals, 2, 2 * ROUTES_PER_PROGRAM);
  }

  lemma CountingStore(topk: seq<int>, counts: seq<int>, locals: seq<Local>, p: nat)
    requires Counting(topk, counts, locals)
    requires p < |locals| && locals[p].phase == 1
    ensures var Local(done, _, held) := locals[p];
            Counting(topk, counts[Cell(p + 1, topk[Source(p) + done]) := held + 1],
                     locals[p := Local(done + 1, 0, held)])
  {
    assert CountingProgram(topk, counts, p, locals[p]);
    var Local(done, _, held) := locals[p];
    var e := topk[Source(p) + done];
    var counts' := counts[Cell(p + 1, e) := held + 1];
    var locals' := locals[p := Local(done + 1, 0, held)];
    RowFrame(topk, counts, p + 1, e, held + 1, 0, 0, 0);
    forall q | 0 <= q < |locals'|
      ensures CountingProgram(topk, counts', q, locals'[q])
    {
      if q == p {
        RowIncrement(topk, counts, p + 1, Source(p), Source(p) + done);
      } else {
        assert CountingProgram(topk, counts, q, locals[q]);
        RowFrame(topk, counts, p + 1, e, held + 1, q + 1, Source(q), Source(q) + locals[q].done);
      }
    }
  }

  // ---------------------------------------------------------- column prefix kernel

  /** Sum of rows `1..row` of column `e`. */
  ghost function ColumnSum(counts: seq<int>, row: nat, e: nat): int
    requires e < EXPERTS && Cell(row + 1, 0) <= |counts|
  {
    if row == 0 then 0 else ColumnSum(counts, row - 1, e) + counts[Cell(row, e)]
  }

  ghost predicate ColumnProgram(before: seq<int>, counts: seq<int>, rows: nat, e: nat, local: Local)
    requires |before| == |counts| == Cell(rows + 1, 0) && e < EXPERTS
  {
    && 0 <= local.done <= rows
    && 0 <= local.phase <= 1
    && local.done + local.phase <= rows
    && local.held == ColumnSum(before, local.done + local.phase, e)
    && (forall row :: 0 <= row <= rows ==>
          counts[Cell(row, e)]
          == if 1 <= row <= local.done then ColumnSum(before, row, e) else before[Cell(row, e)])
  }

  ghost predicate Columns(before: seq<int>, counts: seq<int>, rows: nat, locals: seq<Local>) {
    && |before| == |counts| == Cell(rows + 1, 0)
    && |locals| == EXPERTS
    && (forall e :: 0 <= e < EXPERTS ==> ColumnProgram(before, counts, rows, e, locals[e]))
  }

  lemma ColumnLoad(before: seq<int>, counts: seq<int>, rows: nat, locals: seq<Local>, e: nat)
    requires Columns(before, counts, rows, locals)
    requires e < EXPERTS && locals[e].phase == 0 && locals[e].done < rows
    ensures var Local(done, _, held) := locals[e];
            Columns(before, counts, rows, locals[e := Local(done, 1, held + counts[Cell(done + 1, e)])])
  {
    var Local(done, _, held) := locals[e];
    var locals' := locals[e := Local(done, 1, held + counts[Cell(done + 1, e)])];
    forall f | 0 <= f < EXPERTS
      ensures ColumnProgram(before, counts, rows, f, locals'[f])
    {
      assert ColumnProgram(before, counts, rows, f, locals[f]);
    }
  }

  lemma ColumnWorkBound(before: seq<int>, counts: seq<int>, rows: nat, locals: seq<Local>)
    requires Columns(before, counts, rows, locals)
    ensures Work(locals, 2) <= 2 * rows * EXPERTS
  {
    forall e | 0 <= e < EXPERTS
      ensures 2 * locals[e].done + locals[e].phase <= 2 * rows
    {
      assert ColumnProgram(before, counts, rows, e, locals[e]);
    }
    WorkBound(locals, 2, 2 * rows);
  }

  lemma ColumnStore(before: seq<int>, counts: seq<int>, rows: nat, locals: seq<Local>, e: nat)
    requires Columns(before, counts, rows, locals)
    requires e < EXPERTS && locals[e].phase == 1
    ensures var Local(done, _, held) := locals[e];
            Columns(before, counts[Cell(done + 1, e) := held], rows, locals[e := Local(done + 1, 0, held)])
  {
    var Local(done, _, held) := locals[e];
    assert ColumnProgram(before, counts, rows, e, locals[e]);
    var counts' := counts[Cell(done + 1, e) := held];
    var locals' := locals[e := Local(done + 1, 0, held)];
    forall f | 0 <= f < EXPERTS
      ensures ColumnProgram(before, counts', rows, f, locals'[f])
    {
      assert ColumnProgram(before, counts, rows, f, locals[f]);
    }
  }

  /** Summing the per-program rows gives the counts from the first route on. */
  lemma {:induction false} ColumnSumIsCount(topk: seq<int>, counts: seq<int>, programs: nat, row: nat, e: nat)
    requires ValidRoutes(topk, programs) && row <= programs && e < EXPERTS
    requires |counts| == Cell(programs + 1, 0)
    requires forall p :: 0 <= p < programs ==> RowCounts(topk, counts, p + 1, Source(p), Source(p + 1))
    ensures ColumnSum(counts, row, e) == Count(topk, 0, Source(row), e)
  {
    if row > 0 {
      ColumnSumIsCount(topk, counts, programs, row - 1, e);
      assert RowCounts(topk, counts, row - 1 + 1, Source(row - 1), Source(row));
      CountSplit(topk, 0, Source(row - 1), Source(row), e);
    }
  }

  // ----------------------------------------------------------------- scatter kernel

  ghost predicate CumsumReady(topk: seq<int>, blockM: int, cumsum: seq<int>) {
    && blockM > 0
    && |cumsum| == EXPERTS + 1
    && forall e :: 0 <= e <= EXPERTS ==> cumsum[e] == Begin(topk, blockM, e)
  }

  /** Program `e` has labelled its own blocks below `mark.done`; `mark.held` is the
      slot offset its loop variable has reached. */
  ghost predicate Labelled(topk: seq<int>, blockM: int, owners: seq<int>, e: nat, mark: Local)
    requires blockM > 0
  {
    && mark.phase == 0
    && mark.held == mark.done * blockM
    && 0 <= FirstBlock(topk, blockM, e) <= mark.done <= FirstBlock(topk, blockM, e + 1) <= |owners|
    && forall b :: FirstBlock(topk, blockM, e) <= b < mark.done ==> owners[b] == e
  }

  ghost predicate Labelling(topk: seq<int>, blockM: int, owners: seq<int>, labels: seq<Local>) {
    && blockM > 0
    && |labels| == EXPERTS
    && (forall e :: 0 <= e < EXPERTS ==> Labelled(topk, blockM, owners, e, labels[e]))
  }

  lemma LabellingStart(topk: seq<int>, blockM: int, cumsum: seq<int>, owners: seq<int>, labels: seq<Local>)
    requires CumsumReady(topk, blockM, cumsum)
    requires FirstBlock(topk, blockM, EXPERTS) <= |owners|
    requires |labels| == EXPERTS
    requires forall e :: 0 <= e < EXPERTS ==> labels[e] == Local(cumsum[e] / blockM, 0, cumsum[e])
    ensures Labelling(topk, blockM, owners, labels)
  {
    forall e | 0 <= e < EXPERTS
      ensures Labelled(topk, blockM, owners, e, labels[e])
    {
      FirstBlockMonotone(topk, blockM, e, e + 1);
      FirstBlockMonotone(topk, blockM, e + 1, EXPERTS);
      DivModUnique(FirstBlock(topk, blockM, e), 0, blockM);
    }
  }

  /** One iteration of a labelling loop: the guard keeps the store inside the
      expert's own blocks, so no other label is lost. */
  lemma LabelStore(topk: seq<int>, blockM: int, owners: seq<int>, labels: seq<Local>, e: nat)
    requires Labelling(topk, blockM, owners, labels)
    requires e < EXPERTS && labels[e].held < Begin(topk, blockM, e + 1)
    ensures labels[e].held / blockM == labels[e].done
    ensures 0 <= labels[e].done < FirstBlock(topk, blockM, e + 1) <= |owners|
    ensures Labelling(topk, blockM, owners[labels[e].done := e],
                      labels[e := Local(labels[e].done + 1, 0, labels[e].held + blockM)])
  {
    assert Labelled(topk, blockM, owners, e, labels[e]);
    DivModUnique(labels[e].done, 0, blockM);
    if labels[e].done >= FirstBlock(topk, blockM, e + 1) {
      MulMonotone(FirstBlock(topk, blockM, e + 1), labels[e].done, blockM);
    }
    var owners', labels' := owners[labels[e].done := e], labels[e := Local(labels[e].done + 1, 0, labels[e].held + blockM)];
    forall f | 0 <= f < EXPERTS
      ensures Labelled(topk, blockM, owners', f, labels'[f])
    {
      assert Labelled(topk, blockM, owners, f, labels[f]);
      if f < e {
        FirstBlockMonotone(topk, blockM, f + 1, e);
      } else if e < f {
        FirstBlockMonotone(topk, blockM, e + 1, f);
      } else {
        assert (labels[e].done + 1) * blockM == labels[e].done * blockM + blockM;
      }
    }
  }

  lemma LabelWorkBound(topk: seq<int>, blockM: int, owners: seq<int>, labels: seq<Local>)
    requires Labelling(topk, blockM, owners, labels)
    ensures Work(labels, 1) <= FirstBlock(topk, blockM, EXPERTS) * EXPERTS
  {
    forall e | 0 <= e < EXPERTS
      ensures 1 * labels[e].done + labels[e].phase <= FirstBlock(topk, blockM, EXPERTS)
    {
      assert Labelled(topk, blockM, owners, e, labels[e]);
      FirstBlockMonotone(topk, blockM, e + 1, EXPERTS);
    }
    WorkBound(labels, 1, FirstBlock(topk, blockM, EXPERTS));
  }

  /** When a labelling loop has ended, all of the expert's blocks are labelled. */
  lemma LabellingEnd(topk: seq<int>, blockM: int, owners: seq<int>, labels: seq<Local>, e: nat)
    requires Labelling(topk, blockM, owners, labels)
    requires e < EXPERTS && labels[e].held >= Begin(topk, blockM, e + 1)
    ensures OwnsBlocks(topk, blockM, owners, e)
  {
    assert Labelled(topk, blockM, owners, e, labels[e]);
    if labels[e].done < FirstBlock(topk, blockM, e + 1) {
      MulMonotone(labels[e].done + 1, FirstBlock(topk, blockM, e + 1), blockM);
    }
  }

  /** All blocks of expert `e` are labelled with `e`. */
  ghost predicate OwnsBlocks(topk: seq<int>, blockM: int, owners: seq<int>, e: nat)
    requires blockM > 0
  {
    && 0 <= FirstBlock(topk, blockM, e) <= FirstBlock(topk, blockM, e + 1) <= |owners|
    && forall b :: FirstBlock(topk, blockM, e) <= b < FirstBlock(topk, blockM, e + 1) ==> owners[b] == e
  }

  ghost predicate ScatterProgram(topk: seq<int>, counts: seq<int>, p: nat, local: Local)
    requires Source(p + 1) <= |topk| && ValidExperts(topk)
  {
    && 0 <= local.done <= ROUTES_PER_PROGRAM
    && 0 <= local.phase <= 2
    && RowCounts(topk, counts, p, 0, Source(p) + local.done)
    && (local.phase >= 1 ==>
          && local.done < ROUTES_PER_PROGRAM
          && local.held == counts[Cell(p, topk[Source(p) + local.done])])
  }

  ghost predicate Scattering(topk: seq<int>, counts: seq<int>, locals: seq<Local>) {
    && ValidRoutes(topk, |locals|)
    && |counts| == Cell(|locals| + 1, 0)
    && (forall p :: 0 <= p < |locals| ==> ScatterProgram(topk, counts, p, locals[p]))
  }

  lemma ScatterCount(topk: seq<int>, counts: seq<int>, locals: seq<Local>, p: nat)
    requires Scattering(topk, counts, locals)
    requires p < |locals| && locals[p].phase == 2
    ensures var Local(done, _, held) := locals[p];
            Scattering(topk, counts[Cell(p, topk[Source(p) + done]) := held + 1],
                       locals[p := Local(done + 1, 0, held)])
  {
    assert ScatterProgram(topk, counts, p, locals[p]);
    var Local(done, _, held) := locals[p];
    var e := topk[Source(p) + done];
    var counts' := counts[Cell(p, e) := held + 1];
    var locals' := locals[p := Local(done + 1, 0, held)];
    forall q | 0 <= q < |locals'|
      ensures ScatterProgram(topk, counts', q, locals'[q])
    {
      if q == p {
        RowIncrement(topk, counts, p, 0, Source(p) + done);
      } else {
        assert ScatterProgram(topk, counts, q, locals[q]);
        RowFrame(topk, counts, p, e, held + 1, q, 0, Source(q) + locals[q].done);
      }
    }
  }

  /** Program `p`'s `i`-th route has been stored into its slot. */
  ghost predicate Stored(local: Local, i: int) {
    0 <= i < local.done + (if local.phase == 2 then 1 else 0)
  }

  /** Exactly the routes stored so far are in their slots; all other slots are untouched. */
  ghost predicate Placing(topk: seq<int>, blockM: int, before: seq<int>, sorted: seq<int>, placed: set<int>) {
    && blockM > 0 && ValidExperts(topk)
    && |sorted| == |before| >= Begin(topk, blockM, EXPERTS)
    && (forall r :: r in placed ==> 0 <= r < |topk| && 0 <= Slot(topk, blockM, r) < |sorted|
                                    && sorted[Slot(topk, blockM, r)] == r)
    && (forall j :: 0 <= j < |sorted| ==>
          sorted[j] == before[j] || (sorted[j] in placed && 0 <= sorted[j] < |topk| && Slot(topk, blockM, sorted[j]) == j))
  }

  lemma PlaceRoute(topk: seq<int>, blockM: int, before: seq<int>, sorted: seq<int>, placed: set<int>, r: nat)
    requires Placing(topk, blockM, before, sorted, placed)
    requires r < |topk|
    ensures 0 <= Slot(topk, blockM, r) < |sorted|
    ensures Placing(topk, blockM, before, sorted[Slot(topk, blockM, r) := r], placed + {r})
  {
    SlotInRun(topk, blockM, r);
    var j := Slot(topk, blockM, r);
    forall s | s in placed + {r}
      ensures 0 <= s < |topk| && 0 <= Slot(topk, blockM, s) < |sorted| && sorted[j := r][Slot(topk, blockM, s)] == s
    {
      if s != r {
        SlotInjective(topk, blockM, r, s);
      }
    }
  }

  /** Every route whose store has been done is among the placed ones. */
  ghost predicate AllStored(locals: seq<Local>, placed: set<int>) {
    forall p, i :: 0 <= p < |locals| && Stored(locals[p], i) ==> Source(p) + i in placed
  }

  ghost predicate ScatterState(topk: seq<int>, blockM: int, before: seq<int>, counts: seq<int>,
                               sorted: seq<int>, locals: seq<Local>, placed: set<int>)
  {
    && Scattering(topk, counts, locals)
    && Placing(topk, blockM, before, sorted, placed)
    && AllStored(locals, placed)
  }

  /** The first operation of an iteration loads the rank counter. */
  lemma ScatterLoad(topk: seq<int>, blockM: int, before: seq<int>, counts: seq<int>,
                    sorted: seq<int>, locals: seq<Local>, placed: set<int>, p: nat, local': Local)
    requires ScatterState(topk, blockM, before, counts, sorted, locals, placed)
    requires p < |locals| && locals[p].phase == 0 && locals[p].done < ROUTES_PER_PROGRAM
    requires local' == Local(locals[p].done, 1, counts[Cell(p, topk[Source(p) + locals[p].done])])
    ensures ScatterState(topk, blockM, before, counts, sorted, locals[p := local'], placed)
  {
    var locals' := locals[p := local'];
    forall q | 0 <= q < |locals'|
      ensures ScatterProgram(topk, counts, q, locals'[q])
    {
      assert ScatterProgram(topk, counts, q, locals[q]);
    }
    forall q, i | 0 <= q < |locals'| && Stored(locals'[q], i)
      ensures Source(q) + i in placed
    {
      assert Stored(locals[q], i);
    }
  }

  /** The second operation stores the route, and the address it computes is the slot. */
  lemma ScatterPlace(topk: seq<int>, blockM: int, cumsum: seq<int>, before: seq<int>, counts: seq<int>,
                     sorted: seq<int>, locals: seq<Local>, placed: set<int>, p: nat)
    requires CumsumReady(topk, blockM, cumsum)
    requires ScatterState(topk, blockM, before, counts, sorted, locals, placed)
    requires p < |locals| && locals[p].phase == 1
    ensures var Local(done, _, held) := locals[p];
            var route := Source(p) + done;
            && route < |topk|
            && 0 <= held + cumsum[topk[route]] < |sorted|
            && ScatterState(topk, blockM, before, counts, sorted[held + cumsum[topk[route]] := route],
                            locals[p := Local(done, 2, held)], placed + {route})
  {
    assert ScatterProgram(topk, counts, p, locals[p]);
    var Local(done, _, held) := locals[p];
    var route := Source(p) + done;
    PlaceRoute(topk, blockM, before, sorted, placed, route);
    var locals' := locals[p := Local(done, 2, held)];
    forall q | 0 <= q < |locals'|
      ensures ScatterProgram(topk, counts, q, locals'[q])
    {
      assert ScatterProgram(topk, counts, q, locals[q]);
    }
    forall q, i | 0 <= q < |locals'| && Stored(locals'[q], i)
      ensures Source(q) + i in placed + {route}
    {
      assert (q == p && i == done) || Stored(locals[q], i);
    }
  }

  /** The third operation advances the rank counter. */
  lemma ScatterAdvance(topk: seq<int>, blockM: int, before: seq<int>, counts: seq<int>,
                       sorted: seq<int>, locals: seq<Local>, placed: set<int>, p: nat)
    requires ScatterState(topk, blockM, before, counts, sorted, locals, placed)
    requires p < |locals| && locals[p].phase == 2
    ensures var Local(done, _, held) := locals[p];
            && Source(p) + done < |topk|
            && ScatterState(topk, blockM, before, counts[Cell(p, topk[Source(p) + done]) := held + 1], sorted,
                            locals[p := Local(done + 1, 0, held)], placed)
  {
    ScatterCount(topk, counts, locals, p);
    var Local(done, _, held) := locals[p];
    var locals' := locals[p := Local(done + 1, 0, held)];
    forall q, i | 0 <= q < |locals'| && Stored(locals'[q], i)
      ensures Source(q) + i in placed
    {
      assert Stored(locals[q], i);
    }
  }

  lemma ScatterWorkBound(topk: seq<int>, counts: seq<int>, locals: seq<Local>)
    requires Scattering(topk, counts, locals)
    ensures Work(locals, 3) <= 3 * ROUTES_PER_PROGRAM * |locals|
  {
    forall p | 0 <= p < |locals|
      ensures 3 * locals[p].done + locals[p].phase <= 3 * ROUTES_PER_PROGRAM
    {
      assert ScatterProgram(topk, counts, p, locals[p]);
    }
    WorkBound(locals, 3, 3 * ROUTES_PER_PROGRAM);
  }

  /** Program `p` of the scatter grid still has blocks to label. */
  predicate LabelPending(labels: seq<Local>, cumsum: seq<int>, p: int) {
    0 <= p < |labels| && p + 1 < |cumsum| && labels[p].held < cumsum[p + 1]
  }

  /** The result of the scatter: each route in its slot, every other slot untouched. */
  ghost predicate Scattered(topk: seq<int>, blockM: int, before: seq<int>, sorted: seq<int>)
    requires blockM > 0 && ValidExperts(topk)
  {
    && |sorted| == |before|
    && (forall r :: 0 <= r < |topk| ==> 0 <= Slot(topk, blockM, r) < |sorted| && sorted[Slot(topk, blockM, r)] == r)
    && (forall j :: 0 <= j < |sorted| ==>
          sorted[j] == before[j] || (0 <= sorted[j] < |topk| && Slot(topk, blockM, sorted[j]) == j))
  }

  lemma ScatterEnd(topk: seq<int>, blockM: int, before: seq<int>, counts: seq<int>,
                   sorted: seq<int>, locals: seq<Local>, placed: set<int>)
    requires ScatterState(topk, blockM, before, counts, sorted, locals, placed)
    requires forall p :: 0 <= p < |locals| ==> locals[p].done >= ROUTES_PER_PROGRAM
    ensures Scattered(topk, blockM, before, sorted)
  {
    forall r | 0 <= r < |topk|
      ensures r in placed
    {
      var p, i := r / ROUTES_PER_PROGRAM, r % ROUTES_PER_PROGRAM;
      assert Stored(locals[p], i) && Source(p) + i == r;
    }
  }

  /** What the routing kernels hand to the matrix kernels: a stable padded sort whose
      unused slots hold the out-of-range sentinel, with every block labelled by its owner. */
  ghost predicate Aligned(topk: seq<int>, blockM: int, sorted: seq<int>, owners: seq<int>, total: int) {
    && blockM > 0 && ValidExperts(topk)
    && total == Begin(topk, blockM, EXPERTS) <= |sorted|
    && Scattered(topk, blockM, seq(|sorted|, _ => |topk|), sorted)
    && (forall e :: 0 <= e < EXPERTS ==> OwnsBlocks(topk, blockM, owners, e))
  }

  /** A slot of expert `e`'s run lies in one of expert `e`'s blocks. */
  lemma SlotBlock(topk: seq<int>, blockM: int, e: nat, slot: int)
    requires blockM > 0 && Begin(topk, blockM, e) <= slot < Begin(topk, blockM, e + 1)
    ensures FirstBlock(topk, blockM, e) <= slot / blockM < FirstBlock(topk, blockM, e + 1)
  {
    QuotientBetween(FirstBlock(topk, blockM, e), slot, FirstBlock(topk, blockM, e + 1), blockM);
  }

  /** The block that holds a route's slot is labelled with that route's own expert. */
  lemma SlotOwner(topk: seq<int>, blockM: int, sorted: seq<int>, owners: seq<int>, total: int, r: nat)
    requires Aligned(topk, blockM, sorted, owners, total) && r < |topk|
    ensures 0 <= Slot(topk, blockM, r) < total
    ensures 0 <= Slot(topk, blockM, r) / blockM < |owners|
    ensures owners[Slot(topk, blockM, r) / blockM] == topk[r]
  {
    SlotInRun(topk, blockM, r);
    SlotBlock(topk, blockM, topk[r], Slot(topk, blockM, r));
    assert OwnsBlocks(topk, blockM, owners, topk[r]);
  }

  // ------------------------------------------------------------------- the kernels

  /** The device buffers the routing kernels share. */
  class RoutingBuffers {
    var tokenCounts: seq<int>
    var cumsum: seq<int>
    var totalPostPad: int
    var sortedRouteIds: seq<int>
    var blockExpertIds: seq<int>

    constructor () {
      tokenCounts, cumsum, totalPostPad, sortedRouteIds, blockExpertIds := [], [], 0, [], [];
    }

    /** The next memory operation of counting program `p`: load or store one counter. */
    method CountStep(topk: seq<int>, locals: seq<Local>, p: nat) returns (locals': seq<Local>)
      requires Counting(topk, tokenCounts, locals)
      requires p < |locals| && locals[p].done < ROUTES_PER_PROGRAM
      modifies this`tokenCounts
      ensures |locals'| == |locals| && Counting(topk, tokenCounts, locals')
      ensures Work(locals, 2) < Work(locals', 2) <= 2 * ROUTES_PER_PROGRAM * |locals|
    {
      var Local(done, phase, held) := locals[p];
      assert CountingProgram(topk, tokenCounts, p, locals[p]);
      var cell := Cell(p + 1, topk[Source(p) + done]);
      if phase == 0 {
        locals' := locals[p := Local(done, 1, tokenCounts[cell])];
        CountingLoad(topk, tokenCounts, locals, p);
      } else {
        CountingStore(topk, tokenCounts, locals, p);
        locals' := locals[p := Local(done + 1, 0, held)];
        tokenCounts := tokenCounts[cell := held + 1];
      }
      assert Counting(topk, tokenCounts, locals');
      WorkUpdate(locals, 2, p, locals'[p]);
      CountWorkBound(topk, tokenCounts, locals');
    }

    /** `_route_count_kernel`: program `p` counts its 256 routes into row `p + 1`. */
    method RouteCountKernel(topk: seq<int>, programs: nat)
      requires ValidRoutes(topk, programs)
      requires |tokenCounts| == Cell(programs + 1, 0)
      requires forall i :: 0 <= i < |tokenCounts| ==> tokenCounts[i] == 0
      modifies this`tokenCounts
      ensures |tokenCounts| == Cell(programs + 1, 0)
      ensures RowCounts(topk, tokenCounts, 0, 0, 0)
      ensures forall p :: 0 <= p < programs ==> RowCounts(topk, tokenCounts, p + 1, Source(p), Source(p + 1))
    {
      var locals := seq(programs, _ => Local(0, 0, 0));
      while exists p :: 0 <= p < programs && RoutePending(locals, p)
        invariant |locals| == programs
        invariant Counting(topk, tokenCounts, locals)
        decreases 2 * ROUTES_PER_PROGRAM * programs - Work(locals, 2)
      {
        var p :| 0 <= p < programs && RoutePending(locals, p);
        locals := CountStep(topk, locals, p);
      }
      forall p | 0 <= p < programs
        ensures RowCounts(topk, tokenCounts, p + 1, Source(p), Source(p + 1))
      {
        assert !RoutePending(locals, p);
        assert CountingProgram(topk, tokenCounts, p, locals[p]);
      }
    }

    /** The next memory operation of prefix program `e`: load and add, or store. */
    method PrefixStep(ghost before: seq<int>, programs: nat, locals: seq<Local>, e: nat) returns (locals': seq<Local>)
      requires Columns(before, tokenCounts, programs, locals)
      requires e < EXPERTS && locals[e].done < programs
      modifies this`tokenCounts
      ensures Columns(before, tokenCounts, programs, locals')
      ensures Work(locals, 2) < Work(locals', 2) <= 2 * programs * EXPERTS
    {
      var Local(done, phase, held) := locals[e];
      assert ColumnProgram(before, tokenCounts, programs, e, locals[e]);
      var cell := Cell(done + 1, e);
      if phase == 0 {
        ColumnLoad(before, tokenCounts, programs, locals, e);
        locals' := locals[e := Local(done, 1, held + tokenCounts[cell])];
      } else {
        ColumnStore(before, tokenCounts, programs, locals, e);
        tokenCounts := tokenCounts[cell := held];
        locals' := locals[e := Local(done + 1, 0, held)];
      }
      assert Columns(before, tokenCounts, programs, locals');
      WorkUpdate(locals, 2, e, locals'[e]);
      ColumnWorkBound(before, tokenCounts, programs, locals');
    }

    /** `_route_prefix_by_program_kernel`: program `e` turns column `e` into prefix sums. */
    method RoutePrefixByProgramKernel(programs: nat)
      requires |tokenCounts| == Cell(programs + 1, 0)
      modifies this`tokenCounts
      ensures |tokenCounts| == |old(tokenCounts)|
      ensures forall row, e :: 0 <= row <= programs && 0 <= e < EXPERTS ==>
                tokenCounts[Cell(row, e)]
                == if row == 0 then old(tokenCounts)[Cell(0, e)] else ColumnSum(old(tokenCounts), row, e)
    {
      ghost var before := tokenCounts;
      var locals := seq(EXPERTS, _ => Local(0, 0, 0));
      while exists e :: 0 <= e < EXPERTS && locals[e].done < programs
        invariant Columns(before, tokenCounts, programs, locals)
        decreases 2 * programs * EXPERTS - Work(locals, 2)
      {
        var e :| 0 <= e < EXPERTS && locals[e].done < programs;
        locals := PrefixStep(before, programs, locals, e);
      }
      forall row, e | 0 <= row <= programs && 0 <= e < EXPERTS
        ensures tokenCounts[Cell(row, e)]
                == if row == 0 then before[Cell(0, e)] else ColumnSum(before, row, e)
      {
        assert ColumnProgram(before, tokenCounts, programs, e, locals[e]);
      }
    }

    /** `_route_padded_prefix_kernel`: block-padded prefix sums of the final counts. */
    method RoutePaddedPrefixKernel(topk: seq<int>, programs: nat, blockM: int)
      requires blockM > 0 && ValidRoutes(topk, programs)
      requires RowCounts(topk, tokenCounts, programs, 0, |topk|)
      requires |cumsum| == EXPERTS + 1 && cumsum[0] == 0
      modifies this`cumsum, this`totalPostPad
      ensures CumsumReady(topk, blockM, cumsum)
      ensures totalPostPad == Begin(topk, blockM, EXPERTS)
    {
      var running := 0;
      for expert := 0 to EXPERTS
        invariant |cumsum| == EXPERTS + 1
        invariant running == Begin(topk, blockM, expert)
        invariant forall e :: 0 <= e <= expert ==> cumsum[e] == Begin(topk, blockM, e)
      {
        var count := tokenCounts[Cell(programs, expert)];
        assert count == Count(topk, 0, |topk|, expert);
        var blocks := Blocks(count, blockM);
        assert (FirstBlock(topk, blockM, expert) + blocks) * blockM
            == FirstBlock(topk, blockM, expert) * blockM + blocks * blockM;
        running := running + blocks * blockM;
        cumsum := cumsum[expert + 1 := running];
      }
      totalPostPad := running;
    }

    /** One iteration of program `p`'s block-labelling loop. */
    method LabelStep(ghost topk: seq<int>, blockM: int, labels: seq<Local>, p: nat) returns (labels': seq<Local>)
      requires Labelling(topk, blockM, blockExpertIds, labels)
      requires p < EXPERTS && labels[p].held < Begin(topk, blockM, p + 1)
      modifies this`blockExpertIds
      ensures |blockExpertIds| == |old(blockExpertIds)|
      ensures Labelling(topk, blockM, blockExpertIds, labels')
      ensures Work(labels, 1) < Work(labels', 1) <= FirstBlock(topk, blockM, EXPERTS) * EXPERTS
    {
      var Local(block, _, offset) := labels[p];
      LabelStore(topk, blockM, blockExpertIds, labels, p);
      WorkUpdate(labels, 1, p, Local(block + 1, 0, offset + blockM));
      blockExpertIds := blockExpertIds[offset / blockM := p];
      labels' := labels[p := Local(block + 1, 0, offset + blockM)];
      assert Labelling(topk, blockM, blockExpertIds, labels');
      LabelWorkBound(topk, blockM, blockExpertIds, labels');
    }

    /** The next memory operation of program `p`'s route loop: load the rank counter,
        store the route, or store the advanced counter. */
    method RouteStep(topk: seq<int>, blockM: int, ghost before: seq<int>, ghost placed: set<int>,
                     locals: seq<Local>, p: nat)
      returns (locals': seq<Local>, ghost placed': set<int>)
      requires CumsumReady(topk, blockM, cumsum)
      requires ScatterState(topk, blockM, before, tokenCounts, sortedRouteIds, locals, placed)
      requires p < |locals| && locals[p].done < ROUTES_PER_PROGRAM
      modifies this`tokenCounts, this`sortedRouteIds
      ensures |locals'| == |locals|
      ensures ScatterState(topk, blockM, before, tokenCounts, sortedRouteIds, locals', placed')
      ensures Work(locals, 3) < Work(locals', 3) <= 3 * ROUTES_PER_PROGRAM * |locals|
    {
      var Local(done, phase, held) := locals[p];
      var route := Source(p) + done;
      assert ScatterProgram(topk, tokenCounts, p, locals[p]);
      var expert := topk[route];
      var local';
      placed' := placed;
      if phase == 0 {
        local' := Local(done, 1, tokenCounts[Cell(p, expert)]);
        ScatterLoad(topk, blockM, before, tokenCounts, sortedRouteIds, locals, placed, p, local');
      } else if phase == 1 {
        local' := Local(done, 2, held);
        ScatterPlace(topk, blockM, cumsum, before, tokenCounts, sortedRouteIds, locals, placed, p);
        sortedRouteIds := sortedRouteIds[held + cumsum[expert] := route];
        placed' := placed + {route};
      } else {
        local' := Local(done + 1, 0, held);
        ScatterAdvance(topk, blockM, before, tokenCounts, sortedRouteIds, locals, placed, p);
        tokenCounts := tokenCounts[Cell(p, expert) := held + 1];
      }
      locals' := locals[p := local'];
      assert ScatterState(topk, blockM, before, tokenCounts, sortedRouteIds, locals', placed');
      WorkUpdate(locals, 3, p, local');
      ScatterWorkBound(topk, tokenCounts, locals');
    }

    /** `_route_scatter_kernel`: program `p` labels the blocks of expert `p` and stores its
        routes into their slots, using row `p` of `token_counts` as rank counters. */
    method RouteScatterKernel(topk: seq<int>, programs: nat, blockM: int)
      requires ValidRoutes(topk, programs)
      requires |tokenCounts| == Cell(programs + 1, 0)
      requires forall p :: 0 <= p < programs ==> RowCounts(topk, tokenCounts, p, 0, Source(p))
      requires CumsumReady(topk, blockM, cumsum)
      requires Begin(topk, blockM, EXPERTS) <= |sortedRouteIds|
      requires FirstBlock(topk, blockM, EXPERTS) <= |blockExpertIds|
      modifies this`tokenCounts, this`sortedRouteIds, this`blockExpertIds
      ensures Scattered(topk, blockM, old(sortedRouteIds), sortedRouteIds)
      ensures |blockExpertIds| == |old(blockExpertIds)|
      ensures forall e :: 0 <= e < EXPERTS ==> OwnsBlocks(topk, blockM, blockExpertIds, e)
    {
      ghost var before, placed, lastBlock := sortedRouteIds, {}, FirstBlock(topk, blockM, EXPERTS);
      var grid := if programs < EXPERTS then EXPERTS else programs;
      var begins := cumsum;
      var labels := seq(EXPERTS, e requires 0 <= e < EXPERTS => Local(begins[e] / blockM, 0, begins[e]));
      var locals := seq(programs, _ => Local(0, 0, 0));
      LabellingStart(topk, blockM, cumsum, blockExpertIds, labels);
      while exists p :: 0 <= p < grid && (LabelPending(labels, cumsum, p) || RoutePending(locals, p))
        invariant |locals| == programs && |labels| == EXPERTS
        invariant |blockExpertIds| == |old(blockExpertIds)|
        invariant Labelling(topk, blockM, blockExpertIds, labels)
        invariant ScatterState(topk, blockM, before, tokenCounts, sortedRouteIds, locals, placed)
        decreases lastBlock * EXPERTS - Work(labels, 1), 3 * ROUTES_PER_PROGRAM * programs - Work(locals, 3)
      {
        var p :| 0 <= p < grid && (LabelPending(labels, cumsum, p) || RoutePending(locals, p));
        if LabelPending(labels, cumsum, p) {
          labels := LabelStep(topk, blockM, labels, p);
        } else {
          locals, placed := RouteStep(topk, blockM, before, placed, locals, p);
        }
      }
      forall p | 0 <= p < programs
        ensures locals[p].done >= ROUTES_PER_PROGRAM
      {
        assert !RoutePending(locals, p);
      }
      ScatterEnd(topk, blockM, before, tokenCounts, sortedRouteIds, locals, placed);
      forall e | 0 <= e < EXPERTS
        ensures OwnsBlocks(topk, blockM, blockExpertIds, e)
      {
        assert !LabelPending(labels, cumsum, e);
        LabellingEnd(topk, blockM, blockExpertIds, labels, e);
      }
    }

    /** `launch_route_sort`: clear the buffers, then run the four kernels in stream order. */
    method AlignRoutes(topk: seq<int>, programs: nat, blockM: int)
      requires ValidRoutes(topk, programs) && blockM > 0
      modifies this
      ensures |sortedRouteIds| == MaxSortedRoutes(|topk|, blockM)
      ensures |blockExpertIds| == MaxRouteBlocks(|topk|, blockM)
      ensures Aligned(topk, blockM, sortedRouteIds, blockExpertIds, totalPostPad)
    {
      PaddedLengthFits(topk, blockM);
      FirstBlockMonotone(topk, blockM, 0, EXPERTS);
      tokenCounts := seq(Cell(programs + 1, 0), _ => 0);
      cumsum := seq(EXPERTS + 1, _ => 0);
      sortedRouteIds := seq(MaxSortedRoutes(|topk|, blockM), _ => |topk|);
      blockExpertIds := seq(MaxRouteBlocks(|topk|, blockM), _ => 0);
      ghost var sentinels := sortedRouteIds;
      RouteCountKernel(topk, programs);
      ghost var counted := tokenCounts;
      RoutePrefixByProgramKernel(programs);
      forall row | 0 <= row <= programs
        ensures RowCounts(topk, tokenCounts, row, 0, Source(row))
      {
        forall e | 0 <= e < EXPERTS
          ensures tokenCounts[Cell(row, e)] == Count(topk, 0, Source(row), e)
        {
          ColumnSumIsCount(topk, counted, programs, row, e);
        }
      }
      assert RowCounts(topk, tokenCounts, programs, 0, Source(programs));
      RoutePaddedPrefixKernel(topk, programs, blockM);
      RouteScatterKernel(topk, programs, blockM);
      assert sentinels == seq(|sortedRouteIds|, _ => |topk|);
    }
  }
}
