/** `_grouped_pid`: the swizzle that maps a linear program id to a tile. Programs of
    one group walk down `groupM` tile rows before moving to the next tile column; the
    last group may be shorter, and its row index is `pid % rows` without first
    reducing `pid` modulo the group. */
module GroupedLaunch {
  import opened Arithmetic

  function Min(a: int, b: int): int {
    if a <= b then a else b
  }

  /** `_grouped_pid(pid, num_pid_m, num_pid_n)` as (pid_m, pid_n). */
  function GroupedPid(pid: nat, numM: nat, numN: nat, groupM: nat): (tile: (int, int))
    requires groupM > 0 && pid < numM * numN
    ensures 0 <= tile.0 < numM && 0 <= tile.1 < numN
  {
    GridNonempty(pid, numM, numN, groupM);
    var programsPerGroup := groupM * numN;
    var first := pid / programsPerGroup * groupM;
    var rows := Min(numM - first, groupM);
    InGrid(pid, numM, numN, groupM, programsPerGroup, pid / programsPerGroup, pid % programsPerGroup, rows);
    (first + pid % rows, pid % programsPerGroup / rows)
  }

  /** The program that owns tile (m, n). */
  function ProgramOf(m: nat, n: nat, numM: nat, numN: nat, groupM: nat): int
    requires groupM > 0 && m < numM && n < numN
  {
    var group := m / groupM;
    var first := group * groupM;
    assert first <= m by { assert m == first + m % groupM; }
    var rows := Min(numM - first, groupM);
    var base := group * (groupM * numN) + n * rows;
    base + (m - first - base) % rows
  }

  /** A program with offset `offset` in group `group` has rows left in that group. */
  lemma GroupRows(group: nat, offset: nat, numM: nat, numN: nat, groupM: nat)
    requires groupM > 0 && numN > 0 && offset < groupM * numN
    requires group * (groupM * numN) + offset < numM * numN
    ensures 0 <= group * groupM < numM
    ensures offset < Min(numM - group * groupM, groupM) * numN
  {
    var first := group * groupM;
    assert group * (groupM * numN) == first * numN;
    if numM <= first {
      MulMonotone(numM, first, numN);
    }
    assert (numM - first) * numN == numM * numN - first * numN;
  }

  lemma GridNonempty(pid: nat, numM: nat, numN: nat, groupM: nat)
    requires groupM > 0 && pid < numM * numN
    ensures numN > 0 && groupM * numN > 0
  {
    if numN <= 0 {
      MulMonotone(numN, 0, numM);
    }
    MulMonotone(1, groupM, numN);
  }

  /** Facts of the divisions inside the swizzle. */
  lemma InGrid(pid: nat, numM: nat, numN: nat, groupM: nat, ppg: nat, group: int, offset: int, rows: int)
    requires groupM > 0 && pid < numM * numN
    requires numN > 0 && ppg == groupM * numN > 0
    requires group == pid / ppg && offset == pid % ppg
    requires rows == Min(numM - group * groupM, groupM)
    ensures 0 <= group * groupM < numM && rows > 0
    ensures pid == group * ppg + offset
    ensures 0 <= offset / rows < numN
  {
    Division(pid, ppg);
    GroupRows(group, offset, numM, numN, groupM);
    QuotientBetween(0, offset, numN, rows);
  }

  /** A quotient and remainder below `d` reconstruct at most one number. */
  lemma ResidueUnique(a: int, b: int, d: int)
    requires d > 0 && 0 <= b < d
    ensures (a + (b - a) % d) % d == b
  {
    var t := (b - a) % d;
    var q := (b - a) / d;
    assert b - a == q * d + t;
    DivModUnique(-q, b, d);
    assert a + t == -q * d + b;
  }

  /** Offsets that address a tile column of the group stay inside the group and grid. */
  lemma OffsetInGroup(group: nat, n: nat, t: nat, numM: nat, numN: nat, groupM: nat, rows: int)
    requires groupM > 0 && n < numN && group * groupM < numM
    requires rows == Min(numM - group * groupM, groupM) && t < rows
    ensures 0 <= n * rows + t < groupM * numN
    ensures 0 <= group * (groupM * numN) + (n * rows + t) < numM * numN
  {
    var first := group * groupM;
    MulMonotone(0, n, rows);
    MulMonotone(n + 1, numN, rows);
    assert n * rows + t < rows * numN;
    MulMonotone(rows, groupM, numN);
    MulMonotone(first + rows, numM, numN);
    MulMonotone(0, group, groupM * numN);
    assert (first + rows) * numN == group * (groupM * numN) + rows * numN;
  }

  /** The swizzle of a program given by its group, tile column and residue. */
  lemma GroupedPidAt(group: nat, n: nat, t: nat, numM: nat, numN: nat, groupM: nat, rows: int, pid: int)
    requires groupM > 0 && n < numN && group * groupM < numM
    requires rows == Min(numM - group * groupM, groupM) && t < rows
    requires pid == group * (groupM * numN) + (n * rows + t)
    ensures 0 <= pid < numM * numN
    ensures GroupedPid(pid, numM, numN, groupM) == (group * groupM + pid % rows, n)
  {
    OffsetInGroup(group, n, t, numM, numN, groupM, rows);
    DivModUnique(group, n * rows + t, groupM * numN);
    DivModUnique(n, t, rows);
  }

  /** `ProgramOf` is a right inverse: every tile is owned by a program of the grid. */
  lemma TileHasProgram(m: nat, n: nat, numM: nat, numN: nat, groupM: nat)
    requires groupM > 0 && m < numM && n < numN
    ensures 0 <= ProgramOf(m, n, numM, numN, groupM) < numM * numN
    ensures GroupedPid(ProgramOf(m, n, numM, numN, groupM), numM, numN, groupM) == (m, n)
  {
    var group := m / groupM;
    Division(m, groupM);
    var rows := Min(numM - group * groupM, groupM);
    var base := group * (groupM * numN) + n * rows;
    var t := (m - group * groupM - base) % rows;
    ResidueUnique(base, m - group * groupM, rows);
    TileProgram(m, n, numM, numN, groupM, group, rows, base + t, t);
  }

  /** The program at residue `t` of a column, given that its own residue is the tile's row. */
  lemma TileProgram(m: nat, n: nat, numM: nat, numN: nat, groupM: nat, group: nat, rows: int, pid: int, t: nat)
    requires groupM > 0 && n < numN && group * groupM < numM
    requires rows == Min(numM - group * groupM, groupM) && t < rows
    requires pid == group * (groupM * numN) + n * rows + t && pid % rows == m - group * groupM
    ensures 0 <= pid < numM * numN && GroupedPid(pid, numM, numN, groupM) == (m, n)
  {
    GroupedPidAt(group, n, t, numM, numN, groupM, rows, pid);
  }

  /** `ProgramOf` is a left inverse: no two programs share a tile. */
  lemma ProgramHasTile(pid: nat, numM: nat, numN: nat, groupM: nat)
    requires groupM > 0 && pid < numM * numN
    ensures var tile := GroupedPid(pid, numM, numN, groupM);
            ProgramOf(tile.0, tile.1, numM, numN, groupM) == pid
  {
    GridNonempty(pid, numM, numN, groupM);
    var ppg := groupM * numN;
    var group, offset := pid / ppg, pid % ppg;
    var rows := Min(numM - group * groupM, groupM);
    InGrid(pid, numM, numN, groupM, ppg, group, offset, rows);
    ProgramOfTile(pid, numM, numN, groupM, ppg, group, offset, rows, group * groupM + pid % rows, offset / rows);
  }

  lemma ProgramOfTile(pid: nat, numM: nat, numN: nat, groupM: nat, ppg: nat, group: nat, offset: nat, rows: int, m: nat, n: nat)
    requires groupM > 0 && 0 < rows == Min(numM - group * groupM, groupM) && ppg == groupM * numN
    requires pid == group * ppg + offset && m == group * groupM + pid % rows && n == offset / rows < numN
    ensures m < numM && ProgramOf(m, n, numM, numN, groupM) == pid
  {
    var first := group * groupM;
    DivModUnique(group, m - first, groupM);
    Division(offset, rows);
    ResidueBack(pid, group * ppg + n * rows, offset % rows, rows);
  }

  lemma ResidueBack(pid: int, base: int, t: int, d: int)
    requires 0 <= t < d && pid == base + t
    ensures (pid % d - base) % d == t
  {
    var q := pid / d;
    Division(pid, d);
    DivModUnique(-q, t, d);
    assert pid % d - base == -q * d + t;
  }
}
