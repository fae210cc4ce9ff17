/** The selected-MoE launch over matrices: what the flat buffers mean. Weights are given per expert,
    row and column, tokens per row, and the buffers are their row-major flattening. */
module NestedMoe {
  import opened Arithmetic
  import opened RouteAlignment
  import opened GroupedMatmul

  type Matrix = seq<seq<int>>

  ghost predicate IsMatrix(m: Matrix, rows: nat, columns: nat) {
    |m| == rows && forall i :: 0 <= i < rows ==> |m[i]| == columns
  }

  /** `n` matrices of the same shape. */
  ghost predicate IsStack(stack: seq<Matrix>, n: nat, rows: nat, columns: nat) {
    |stack| == n && forall e :: 0 <= e < n ==> IsMatrix(stack[e], rows, columns)
  }

  /** The rows of a matrix, one after the other. */
  function Flat(m: Matrix): seq<int> {
    if |m| == 0 then [] else Flat(m[..|m| - 1]) + m[|m| - 1]
  }

  function FlatRows(stack: seq<Matrix>): Matrix {
    seq(|stack|, e requires 0 <= e < |stack| => Flat(stack[e]))
  }

  /** The matrices of a stack, one after the other. */
  function FlatStack(stack: seq<Matrix>): seq<int> {
    Flat(FlatRows(stack))
  }

  lemma {:induction false} FlatLength(m: Matrix, columns: nat)
    requires IsMatrix(m, |m|, columns)
    ensures |Flat(m)| == |m| * columns
  {
    if |m| > 0 {
      FlatLength(m[..|m| - 1], columns);
      Distributes(|m| - 1, 1, columns);
    }
  }

  lemma {:induction false} FlatAt(m: Matrix, columns: nat, i: nat, k: nat)
    requires IsMatrix(m, |m|, columns) && i < |m| && k < columns
    ensures 0 <= i * columns + k < |Flat(m)| && Flat(m)[i * columns + k] == m[i][k]
  {
    var n := |m| - 1;
    FlatLength(m, columns);
    FlatLength(m[..n], columns);
    TileIndex(i, k, |m|, columns);
    if i < n {
      FlatAt(m[..n], columns, i, k);
    }
  }

  /** Element `k` of row `row` of matrix `e`. */
  lemma FlatStackAt(stack: seq<Matrix>, rows: nat, columns: nat, e: nat, row: nat, k: nat, size: nat)
    requires IsStack(stack, |stack|, rows, columns) && e < |stack| && row < rows && k < columns && size == rows * columns
    ensures |FlatStack(stack)| == |stack| * size
    ensures 0 <= e * size + (row * columns + k) < |stack| * size
    ensures FlatStack(stack)[e * size + (row * columns + k)] == stack[e][row][k]
  {
    var flats := FlatRows(stack);
    FlatRowsShape(stack, rows, columns, size);
    FlatLength(flats, size);
    FlatAt(stack[e], columns, row, k);
    FlatAt(flats, size, e, row * columns + k);
  }

  lemma FlatRowsShape(stack: seq<Matrix>, rows: nat, columns: nat, size: nat)
    requires IsStack(stack, |stack|, rows, columns) && size == rows * columns
    ensures IsMatrix(FlatRows(stack), |stack|, size)
  {
    forall e | 0 <= e < |stack| ensures |FlatRows(stack)[e]| == size {
      FlatLength(stack[e], columns);
    }
  }

  // ------------------------------------------------------------------------- the formula

  /** The sum of the first `n` products. */
  ghost function Inner(a: seq<int>, b: seq<int>, n: nat): int
    requires n <= |a| && n <= |b|
  {
    if n == 0 then 0 else Inner(a, b, n - 1) + a[n - 1] * b[n - 1]
  }

  lemma {:induction false} DotIsInner(a: seq<int>, ao: nat, b: seq<int>, bo: nat, x: seq<int>, y: seq<int>, n: nat)
    requires ao + n <= |a| && bo + n <= |b| && n <= |x| && n <= |y|
    requires forall k :: 0 <= k < n ==> a[ao + k] == x[k]
    requires forall k :: 0 <= k < n ==> b[bo + k] == y[k]
    ensures Dot(a, ao, b, bo, n) == Inner(x, y, n)
  {
    if n > 0 {
      DotIsInner(a, ao, b, bo, x, y, n - 1);
      assert a[ao + (n - 1)] == x[n - 1] && b[bo + (n - 1)] == y[n - 1];
    }
  }

  /** Tokens, and the gate/up and down matrices of every expert. */
  datatype Data = Data(tokens: Matrix, gateUp: seq<Matrix>, down: seq<Matrix>) {
    ghost predicate Valid(topk: seq<int>) {
      && ValidExperts(topk) && |topk| % TOP_K == 0 && IsMatrix(tokens, |topk| / TOP_K, HIDDEN)
      && IsStack(gateUp, EXPERTS, GATE_UP_ROWS, HIDDEN) && IsStack(down, EXPERTS, HIDDEN, INTERMEDIATE)
    }

    function Buffers(): Weights {
      Weights(FlatStack(gateUp), FlatStack(down))
    }
  }

  /** Activation `j` of route `r`: its expert's gate row `j` and up row `j + 512` applied to its
      token, one of eight routes per token. */
  ghost function Activation(topk: seq<int>, data: Data, act: (int, int) -> int, r: nat, j: nat): int
    requires data.Valid(topk) && r < |topk| && j < INTERMEDIATE
  {
    var token, matrix := data.tokens[r / TOP_K], data.gateUp[topk[r]];
    act(Inner(token, matrix[j], HIDDEN), Inner(token, matrix[j + INTERMEDIATE], HIDDEN))
  }

  ghost function ActivationsOf(topk: seq<int>, data: Data, act: (int, int) -> int, r: nat): seq<int>
    requires data.Valid(topk) && r < |topk|
  {
    seq(INTERMEDIATE, j requires 0 <= j < INTERMEDIATE => Activation(topk, data, act, r, j))
  }

  /** Output `c` of route `r`: its expert's down row `c` applied to its activations. */
  ghost function Output(topk: seq<int>, data: Data, act: (int, int) -> int, endpoint: int -> int, r: nat, c: nat): int
    requires data.Valid(topk) && r < |topk| && c < HIDDEN
  {
    endpoint(Inner(ActivationsOf(topk, data, act, r), data.down[topk[r]][c], INTERMEDIATE))
  }

  // ---------------------------------------------------------------- the buffers mean that

  lemma BuffersValid(topk: seq<int>, data: Data)
    requires data.Valid(topk)
    ensures ValidData(topk, Flat(data.tokens), data.Buffers())
  {
    FlatLength(data.tokens, HIDDEN);
    FlatRowsShape(data.gateUp, GATE_UP_ROWS, HIDDEN, GATE_UP_ROWS * HIDDEN);
    FlatLength(FlatRows(data.gateUp), GATE_UP_ROWS * HIDDEN);
    FlatRowsShape(data.down, HIDDEN, INTERMEDIATE, HIDDEN * INTERMEDIATE);
    FlatLength(FlatRows(data.down), HIDDEN * INTERMEDIATE);
  }

  /** A gate/up row of the buffer is the row of the expert's matrix. */
  lemma GateUpRowMeans(topk: seq<int>, data: Data, e: nat, row: nat, k: nat)
    requires data.Valid(topk) && e < EXPERTS && row < GATE_UP_ROWS && k < HIDDEN
    ensures 0 <= GateUpRow(e, row) + k < |FlatStack(data.gateUp)|
    ensures FlatStack(data.gateUp)[GateUpRow(e, row) + k] == data.gateUp[e][row][k]
  {
    FlatStackAt(data.gateUp, GATE_UP_ROWS, HIDDEN, e, row, k, GATE_UP_ROWS * HIDDEN);
  }

  lemma DownRowMeans(topk: seq<int>, data: Data, e: nat, row: nat, k: nat)
    requires data.Valid(topk) && e < EXPERTS && row < HIDDEN && k < INTERMEDIATE
    ensures 0 <= DownRow(e, row) + k < |FlatStack(data.down)|
    ensures FlatStack(data.down)[DownRow(e, row) + k] == data.down[e][row][k]
  {
    FlatStackAt(data.down, HIDDEN, INTERMEDIATE, e, row, k, HIDDEN * INTERMEDIATE);
  }

  lemma GateUpDot(topk: seq<int>, data: Data, t: nat, e: nat, row: nat)
    requires data.Valid(topk) && t < |topk| / TOP_K && e < EXPERTS && row < GATE_UP_ROWS
    ensures t * HIDDEN + HIDDEN <= |Flat(data.tokens)| && 0 <= GateUpRow(e, row) <= |FlatStack(data.gateUp)| - HIDDEN
    ensures Dot(Flat(data.tokens), t * HIDDEN, FlatStack(data.gateUp), GateUpRow(e, row), HIDDEN)
            == Inner(data.tokens[t], data.gateUp[e][row], HIDDEN)
  {
    var tokens, weights := Flat(data.tokens), FlatStack(data.gateUp);
    FlatAt(data.tokens, HIDDEN, t, HIDDEN - 1);
    GateUpRowMeans(topk, data, e, row, 0);
    GateUpRowMeans(topk, data, e, row, HIDDEN - 1);
    forall k | 0 <= k < HIDDEN ensures tokens[t * HIDDEN + k] == data.tokens[t][k] {
      FlatAt(data.tokens, HIDDEN, t, k);
    }
    forall k | 0 <= k < HIDDEN ensures weights[GateUpRow(e, row) + k] == data.gateUp[e][row][k] {
      GateUpRowMeans(topk, data, e, row, k);
    }
    DotIsInner(tokens, t * HIDDEN, weights, GateUpRow(e, row), data.tokens[t], data.gateUp[e][row], HIDDEN);
  }

  lemma ActivationMeans(topk: seq<int>, data: Data, act: (int, int) -> int, r: nat, j: nat)
    requires data.Valid(topk) && r < |topk| && j < INTERMEDIATE
    ensures ValidData(topk, Flat(data.tokens), data.Buffers())
    ensures NaiveActivation(topk, Flat(data.tokens), data.Buffers(), act, r, j) == Activation(topk, data, act, r, j)
  {
    BuffersValid(topk, data);
    GateUpDot(topk, data, r / TOP_K, topk[r], j);
    GateUpDot(topk, data, r / TOP_K, topk[r], j + INTERMEDIATE);
  }

  /** The naive outputs over the buffers are the formula over the matrices. */
  lemma OutputMeans(topk: seq<int>, data: Data, act: (int, int) -> int, endpoint: int -> int, r: nat, c: nat)
    requires data.Valid(topk) && r < |topk| && c < HIDDEN
    ensures ValidData(topk, Flat(data.tokens), data.Buffers())
    ensures var flat := NaiveOutputs(topk, NaiveActivations(topk, Flat(data.tokens), data.Buffers(), act), data.Buffers(), endpoint);
            0 <= r * HIDDEN + c < |flat| && flat[r * HIDDEN + c] == Output(topk, data, act, endpoint, r, c)
  {
    BuffersValid(topk, data);
    var activated := NaiveActivations(topk, Flat(data.tokens), data.Buffers(), act);
    NaiveOutputAt(topk, activated, data.Buffers(), endpoint, r, c);
    DownDot(topk, data, act, activated, r, c);
  }

  lemma DownDot(topk: seq<int>, data: Data, act: (int, int) -> int, activated: seq<int>, r: nat, c: nat)
    requires data.Valid(topk) && r < |topk| && c < HIDDEN && ValidData(topk, Flat(data.tokens), data.Buffers())
    requires activated == NaiveActivations(topk, Flat(data.tokens), data.Buffers(), act)
    ensures r * INTERMEDIATE + INTERMEDIATE <= |activated| && 0 <= DownRow(topk[r], c) <= |FlatStack(data.down)| - INTERMEDIATE
    ensures Dot(activated, r * INTERMEDIATE, FlatStack(data.down), DownRow(topk[r], c), INTERMEDIATE)
            == Inner(ActivationsOf(topk, data, act, r), data.down[topk[r]][c], INTERMEDIATE)
  {
    var weights, x, y := FlatStack(data.down), ActivationsOf(topk, data, act, r), data.down[topk[r]][c];
    DownRowMeans(topk, data, topk[r], c, 0);
    DownRowMeans(topk, data, topk[r], c, INTERMEDIATE - 1);
    NaiveActivationAt(topk, Flat(data.tokens), data.Buffers(), act, r, INTERMEDIATE - 1);
    forall j | 0 <= j < INTERMEDIATE ensures activated[r * INTERMEDIATE + j] == x[j] {
      NaiveActivationAt(topk, Flat(data.tokens), data.Buffers(), act, r, j);
      ActivationMeans(topk, data, act, r, j);
    }
    forall j | 0 <= j < INTERMEDIATE ensures weights[DownRow(topk[r], c) + j] == y[j] {
      DownRowMeans(topk, data, topk[r], c, j);
    }
    DotIsInner(activated, r * INTERMEDIATE, weights, DownRow(topk[r], c), x, y, INTERMEDIATE);
  }

  /** The launch on the flattened matrices: every route's row of outputs is the formula for its own
      token and its own expert. */
  method MoeOfMatrices(topk: seq<int>, sortPrograms: nat, shape: Shape, data: Data, act: (int, int) -> int, endpoint: int -> int)
    returns (outputs: Matrix)
    requires Configurable(shape) && ValidRoutes(topk, sortPrograms) && data.Valid(topk)
    ensures IsMatrix(outputs, |topk|, HIDDEN)
    ensures forall r, c :: 0 <= r < |topk| && 0 <= c < HIDDEN ==> outputs[r][c] == Output(topk, data, act, endpoint, r, c)
  {
    BuffersValid(topk, data);
    var flat := SelectedMoe(topk, sortPrograms, shape, Flat(data.tokens), data.Buffers(), act, endpoint);
    outputs := [];
    for i := 0 to |topk|
      invariant IsMatrix(outputs, i, HIDDEN)
      invariant forall r, c :: 0 <= r < i && 0 <= c < HIDDEN ==> outputs[r][c] == Output(topk, data, act, endpoint, r, c)
    {
      OutputMeans(topk, data, act, endpoint, i, HIDDEN - 1);
      OutputMeans(topk, data, act, endpoint, i, 0);
      forall c | 0 <= c < HIDDEN ensures flat[i * HIDDEN + c] == Output(topk, data, act, endpoint, i, c) {
        OutputMeans(topk, data, act, endpoint, i, c);
      }
      outputs := outputs + [flat[i * HIDDEN..i * HIDDEN + HIDDEN]];
    }
  }
}
