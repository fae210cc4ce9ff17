/** The larger-window analysis of whole result files: the replay set, the rows that could still
    be correct and the score bounds are computed from the logs, and enclose the true score. */
module ReplayScore {
  import opened Options
  import opened Sequences
  import opened LetterRun
  import opened WindowSteps
  import opened InverseWindow
  import opened RouteReplay
  import opened ReplaySet

  /** What the analysis knows of a row is right about its log. Without the service log every missing
      row could be correct. */
  ghost predicate Describes(row: Row, steps: seq<Step>, active: int, analysis: int, target: int, logged: bool,
                            replay: Option<bool>, known: Known)
    requires forall k :: 0 <= k < |steps| ==> Parsed(steps[k])
  {
    && known.base == row.correct && known.replayed == replay
    && (known.expected <==> InReplay(NearestExcluded(AllDistances(steps), active, analysis), target))
    && (EndsAtLetter(row, steps) && known.expected && replay.None? ==> (known.could <==> !logged || Could(row, steps, target)))
  }

  lemma LoggedEnds(row: Row, steps: seq<Step>, oracle: Oracle, capacity: nat)
    requires Logged(row, steps, oracle, capacity)
    ensures EndsAtLetter(row, steps)
  {
    var path := Path(steps);
    assert forall i :: 0 <= i < |steps| ==> path[i] == steps[i].sampled;
  }

  /** A possible result of a row that agrees with its replay is one the bounds allow for. */
  lemma PossibleExplained(row: Row, steps: seq<Step>, active: int, analysis: int, target: int, capacity: nat, logged: bool,
                          replay: Option<bool>, known: Known, truth: bool)
    requires (forall k :: 0 <= k < |steps| ==> Parsed(steps[k])) && active < target <= analysis
    requires Describes(row, steps, active, analysis, target, logged, replay, known)
    requires Possible(row, steps, active, target, capacity, truth) && (replay.Some? ==> truth == replay.value)
    ensures Explains(known, truth)
  {
    var oracle, rank, next, run :|
      World(row, steps, active, target, capacity, oracle, rank, next, run) && (truth <==> Final(run) == Some(row.answer));
    LoggedEnds(row, steps, oracle, capacity);
    WorldExplains(row, steps, active, analysis, target, capacity, oracle, rank, next, run, known);
  }

  function Replayed(replays: map<Id, bool>, id: Id): Option<bool> {
    if id in replays then Some(replays[id]) else None
  }

  /** A result file: rows with their question IDs and logged steps. */
  datatype Results = Results(ids: seq<Id>, rows: seq<Row>, groups: seq<seq<Step>>) {
    ghost predicate Valid() {
      && |ids| == |rows| == |groups| && Distinct(ids)
      && forall i, k :: 0 <= i < |groups| && 0 <= k < |groups[i]| ==> Parsed(groups[i][k])
    }
  }

  /** `truth` lists results that the rows can have under the target window, given the replays. */
  ghost predicate PossibleTruth(base: Results, replays: map<Id, bool>, active: int, target: int, capacity: nat, truth: seq<bool>)
    requires base.Valid()
  {
    && |truth| == |base.rows|
    && forall i :: 0 <= i < |truth| ==>
         && Possible(base.rows[i], base.groups[i], active, target, capacity, truth[i])
         && (base.ids[i] in replays ==> truth[i] == replays[base.ids[i]])
  }

  /** The nearest excluded distance of every row. */
  method Nearest(base: Results, active: int, analysis: int) returns (nearest: seq<Option<int>>)
    requires base.Valid()
    ensures |nearest| == |base.rows|
    ensures forall i :: 0 <= i < |nearest| ==> nearest[i] == NearestExcluded(AllDistances(base.groups[i]), active, analysis)
  {
    nearest := [];
    for i := 0 to |base.rows|
      invariant |nearest| == i
      invariant forall k :: 0 <= k < i ==> nearest[k] == NearestExcluded(AllDistances(base.groups[k]), active, analysis)
    {
      nearest := nearest + [NearestExcluded(AllDistances(base.groups[i]), active, analysis)];
    }
  }

  /** What is known of one row: nothing when a missing row is refused. Without the service log
      every missing row could be correct. */
  method Judge(row: Row, steps: seq<Step>, target: int, expected: bool, replay: Option<bool>, logged: bool, partial: bool)
    returns (known: Option<Known>)
    requires forall k :: 0 <= k < |steps| ==> Parsed(steps[k])
    ensures known.Some? ==> known.value.base == row.correct && known.value.replayed == replay && known.value.expected == expected
    ensures known.Some? && EndsAtLetter(row, steps) && expected && replay.None? ==>
              (known.value.could <==> !logged || Could(row, steps, target))
    ensures known.Some? && !partial && expected ==> replay.Some?
    ensures (partial || !expected || replay.Some?) && row.answer < 10 && (forall k :: 0 <= k < |steps| ==> Accepted(steps[k])) ==> known.Some?
  {
    var could := true;
    if expected && replay.None? {
      if !partial {
        return None;
      }
      if logged {
        var judged := CouldBeCorrect(row, steps, target);
        if judged.None? {
          return None;
        }
        could := judged.value;
      }
    }
    known := Some(Known(row.correct, expected, replay, could));
  }

  ghost predicate InSet(base: Results, active: int, analysis: int, target: int, i: nat)
    requires base.Valid() && i < |base.rows|
  {
    InReplay(NearestExcluded(AllDistances(base.groups[i]), active, analysis), target)
  }

  /** The logs are well formed, only rows of the replay set are replayed, and all of them unless
      a partial replay is allowed. */
  ghost predicate Complete(base: Results, replays: map<Id, bool>, active: int, analysis: int, target: int, partial: bool)
    requires base.Valid()
  {
    && (forall i :: 0 <= i < |base.rows| ==> base.rows[i].answer < 10)
    && (forall i, k :: 0 <= i < |base.rows| && 0 <= k < |base.groups[i]| ==> Accepted(base.groups[i][k]))
    && (forall id :: id in replays ==> id in base.ids)
    && (forall i :: 0 <= i < |base.rows| && base.ids[i] in replays ==> InSet(base, active, analysis, target, i))
    && (!partial ==> forall i :: 0 <= i < |base.rows| && InSet(base, active, analysis, target, i) ==> base.ids[i] in replays)
  }

  /** `analyze`: refuses replays of rows outside the replay set, incomplete replays unless allowed,
      and malformed logs; otherwise the true total lies within the reported bounds. */
  method LargerWindowScore(base: Results, replays: map<Id, bool>, active: int, analysis: int, target: int,
                           logged: bool, partial: bool, ghost capacity: nat)
    returns (bounds: Option<(int, int)>, ghost known: seq<Known>)
    requires base.Valid() && active < target <= analysis
    ensures bounds.Some? ==>
              && |known| == |base.rows|
              && (forall i :: 0 <= i < |known| ==> RowKnown(base, replays, active, analysis, target, logged, partial, i, known[i]))
              && bounds.value == (Count(Lows(known)), Count(Highs(known)))
    ensures bounds.Some? ==> forall truth :: PossibleTruth(base, replays, active, target, capacity, truth) ==>
              bounds.value.0 <= Count(truth) <= bounds.value.1
    ensures bounds.Some? && !partial ==> bounds.value.0 == bounds.value.1
    ensures Complete(base, replays, active, analysis, target, partial) ==> bounds.Some?
  {
    var nearest := Nearest(base, active, analysis);
    var expected := ReplayRows(base.ids, nearest, active, analysis, target);
    if exists id :: id in replays && id !in expected {
      Unexpected(base, replays, active, analysis, target, partial, expected);
      return None, [];
    }
    var rows := KnownRows(base, replays, active, analysis, target, logged, partial, expected);
    if rows.None? {
      return None, [];
    }
    known := rows.value;
    bounds := Bounds(base, replays, active, analysis, target, logged, partial, rows.value, capacity);
  }

  lemma Unexpected(base: Results, replays: map<Id, bool>, active: int, analysis: int, target: int, partial: bool, expected: seq<Id>)
    requires base.Valid() && forall i :: 0 <= i < |base.rows| ==> (base.ids[i] in expected <==> InSet(base, active, analysis, target, i))
    requires exists id :: id in replays && id !in expected
    ensures !Complete(base, replays, active, analysis, target, partial)
  {
    var id :| id in replays && id !in expected;
    if id in base.ids {
      var i :| 0 <= i < |base.ids| && base.ids[i] == id;
    }
  }

  /** The rows of the file, judged one by one. */
  method KnownRows(base: Results, replays: map<Id, bool>, ghost active: int, ghost analysis: int, target: int,
                   logged: bool, partial: bool, expected: seq<Id>)
    returns (rows: Option<seq<Known>>)
    requires base.Valid() && forall i :: 0 <= i < |base.rows| ==> (base.ids[i] in expected <==> InSet(base, active, analysis, target, i))
    requires forall id :: id in replays ==> id in expected
    ensures rows.Some? ==> |rows.value| == |base.rows|
    ensures rows.Some? ==> forall k :: 0 <= k < |base.rows| ==> RowKnown(base, replays, active, analysis, target, logged, partial, k, rows.value[k])
    ensures Complete(base, replays, active, analysis, target, partial) ==> rows.Some?
  {
    var done: seq<Known> := [];
    for i := 0 to |base.rows|
      invariant |done| == i && forall k :: 0 <= k < i ==> RowKnown(base, replays, active, analysis, target, logged, partial, k, done[k])
    {
      var known := Judge(base.rows[i], base.groups[i], target, base.ids[i] in expected, Replayed(replays, base.ids[i]), logged, partial);
      if known.None? {
        return None;
      }
      assert InSet(base, active, analysis, target, i) <==> base.ids[i] in expected;
      done := done + [known.value];
    }
    rows := Some(done);
  }

  ghost predicate RowKnown(base: Results, replays: map<Id, bool>, active: int, analysis: int, target: int, logged: bool, partial: bool,
                           i: nat, known: Known)
    requires base.Valid() && i < |base.rows|
  {
    && Describes(base.rows[i], base.groups[i], active, analysis, target, logged, Replayed(replays, base.ids[i]), known)
    && (known.replayed.Some? ==> known.expected) && (!partial && known.expected ==> known.replayed.Some?)
  }

  method Bounds(base: Results, ghost replays: map<Id, bool>, ghost active: int, ghost analysis: int, ghost target: int,
                ghost logged: bool, ghost partial: bool, rows: seq<Known>, ghost capacity: nat)
    returns (bounds: Option<(int, int)>)
    requires base.Valid() && active < target <= analysis && |rows| == |base.rows|
    requires forall k :: 0 <= k < |rows| ==> RowKnown(base, replays, active, analysis, target, logged, partial, k, rows[k])
    ensures bounds.Some? && bounds.value == (Count(Lows(rows)), Count(Highs(rows)))
    ensures forall truth :: PossibleTruth(base, replays, active, target, capacity, truth) ==>
              bounds.value.0 <= Count(truth) <= bounds.value.1
    ensures !partial ==> bounds.value.0 == bounds.value.1
  {
    assert forall i :: 0 <= i < |rows| && rows[i].replayed.Some? ==> RowKnown(base, replays, active, analysis, target, logged, partial, i, rows[i]);
    var minimum, maximum;
    ghost var low, high;
    minimum, maximum, low, high := ScoreBounds(rows);
    forall truth | PossibleTruth(base, replays, active, target, capacity, truth)
      ensures minimum <= Count(truth) <= maximum
    {
      TruthExplained(base, replays, active, analysis, target, logged, partial, rows, capacity, truth);
    }
    if !partial {
      Settled(base, replays, active, analysis, target, logged, rows, low, high);
    }
    bounds := Some((minimum, maximum));
  }

  lemma TruthExplained(base: Results, replays: map<Id, bool>, active: int, analysis: int, target: int, logged: bool, partial: bool,
                       rows: seq<Known>, capacity: nat, truth: seq<bool>)
    requires base.Valid() && active < target <= analysis && |rows| == |base.rows|
    requires forall k :: 0 <= k < |rows| ==> RowKnown(base, replays, active, analysis, target, logged, partial, k, rows[k])
    requires PossibleTruth(base, replays, active, target, capacity, truth)
    ensures ExplainsAll(rows, truth)
  {
    forall i | 0 <= i < |rows| ensures Explains(rows[i], truth[i]) {
      assert RowKnown(base, replays, active, analysis, target, logged, partial, i, rows[i]);
      PossibleExplained(base.rows[i], base.groups[i], active, analysis, target, capacity, logged,
                        Replayed(replays, base.ids[i]), rows[i], truth[i]);
    }
  }

  /** With every row of the replay set replayed, only one total is left. */
  lemma Settled(base: Results, replays: map<Id, bool>, active: int, analysis: int, target: int, logged: bool, rows: seq<Known>,
                a: seq<bool>, b: seq<bool>)
    requires base.Valid() && |rows| == |base.rows| && ExplainsAll(rows, a) && ExplainsAll(rows, b)
    requires forall k :: 0 <= k < |rows| ==> RowKnown(base, replays, active, analysis, target, logged, false, k, rows[k])
    ensures a == b
  {
    forall i | 0 <= i < |rows| ensures a[i] == b[i] {
      assert RowKnown(base, replays, active, analysis, target, logged, false, i, rows[i]);
      assert Explains(rows[i], a[i]) && Explains(rows[i], b[i]);
    }
  }
}
