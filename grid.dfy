/**
 * Value-level description of a Sudoku board's derived grid ("model"):
 * how it is derived from the cells, which cells share a row, column or box,
 * how many digits remain possible for a cell, when a digit conflicts with
 * the selected cell, and which cell the two empty-cell searches pick.
 *
 * Grids are indexed [row][column], both 0..8; 0 means "no digit".
 */
module Grid {

  datatype Option<T> = None | Some(value: T)

  /** A board position (row, column). */
  type Pos = (int, int)

  predicate IsGrid(g: seq<seq<int>>) {
    |g| == 9 && forall i :: 0 <= i < 9 ==> |g[i]| == 9
  }

  predicate InRange(i: int, j: int) {
    0 <= i < 9 && 0 <= j < 9
  }

  /** The effective digit of every cell: its committed value, or its scratch digit while uncommitted. */
  function ModelOf(values: seq<seq<int>>, temps: seq<seq<int>>): (g: seq<seq<int>>)
    requires IsGrid(values) && IsGrid(temps)
    ensures IsGrid(g)
  {
    seq(9, i requires 0 <= i < 9 =>
      seq(9, j requires 0 <= j < 9 => if values[i][j] != 0 then values[i][j] else temps[i][j]))
  }

  /** Two grids that agree on every cell are equal. */
  lemma SameGrid(a: seq<seq<int>>, b: seq<seq<int>>)
    requires IsGrid(a) && IsGrid(b)
    requires forall i, j :: InRange(i, j) ==> a[i][j] == b[i][j]
    ensures a == b
  {
    forall i | 0 <= i < 9
      ensures a[i] == b[i]
    {
      assert forall j :: 0 <= j < 9 ==> a[i][j] == b[i][j];
    }
  }

  /**
   * Committing every uncommitted cell's scratch digit turns the values into
   * the current model; the model derived from those values and the unchanged
   * scratch digits is the model already held.
   */
  lemma ConfirmKeepsModel(values: seq<seq<int>>, temps: seq<seq<int>>)
    requires IsGrid(values) && IsGrid(temps)
    ensures ModelOf(ModelOf(values, temps), temps) == ModelOf(values, temps)
    ensures forall i, j :: InRange(i, j) && values[i][j] != 0 ==> ModelOf(values, temps)[i][j] == values[i][j]
    ensures forall i, j :: InRange(i, j) && values[i][j] == 0 && temps[i][j] == 0 ==> ModelOf(values, temps)[i][j] == 0
  {
    var m := ModelOf(values, temps);
    var mm := ModelOf(m, temps);
    forall i | 0 <= i < 9
      ensures mm[i] == m[i]
    {
      assert forall j :: 0 <= j < 9 ==> mm[i][j] == m[i][j];
    }
  }

  // ---------------------------------------------------------------------------
  // Row-major order and empty cells

  /** (i, j) comes strictly before (p, q) when the grid is scanned row by row. */
  predicate Before(i: int, j: int, p: int, q: int) {
    i < p || (i == p && j < q)
  }

  /** No cell of the grid is empty. */
  ghost predicate Full(g: seq<seq<int>>)
    requires IsGrid(g)
  {
    forall i, j :: InRange(i, j) ==> g[i][j] != 0
  }

  /** (i, j) is the first empty cell in row-major order. */
  ghost predicate FirstEmpty(g: seq<seq<int>>, i: int, j: int)
    requires IsGrid(g)
  {
    InRange(i, j) && g[i][j] == 0 &&
    forall p, q :: InRange(p, q) && Before(p, q, i, j) ==> g[p][q] != 0
  }

  /** At most one cell is the first empty one, and a full grid has none. */
  lemma FirstEmptyUnique(g: seq<seq<int>>, i: int, j: int, p: int, q: int)
    requires IsGrid(g)
    requires FirstEmpty(g, i, j)
    ensures FirstEmpty(g, p, q) ==> (p, q) == (i, j)
    ensures !Full(g)
  {
    if FirstEmpty(g, p, q) {
      var here, there := g[i][j], g[p][q];
      assert Before(p, q, i, j) ==> there != 0;
      assert Before(i, j, p, q) ==> here != 0;
    }
  }

  // ---------------------------------------------------------------------------
  // Rows, columns and 3x3 boxes

  /** (p, q) lies in the same 3x3 box as (i, j). */
  predicate SameBox(i: int, j: int, p: int, q: int) {
    i / 3 == p / 3 && j / 3 == q / 3
  }

  /** (p, q) shares a row, a column or a box with (i, j); (i, j) is its own peer. */
  predicate Peer(i: int, j: int, p: int, q: int) {
    i == p || j == q || SameBox(i, j, p, q)
  }

  /**
   * Every peer of (n, c), that is every cell its row, column and box tallies
   * read, holds a digit 1..9 or the blank 0.
   */
  ghost predicate DigitsAround(g: seq<seq<int>>, n: int, c: int)
    requires IsGrid(g)
  {
    forall p, q :: InRange(p, q) && Peer(n, c, p, q) ==> 0 <= g[p][q] <= 9
  }

  /**
   * The cell the box loop of the board visits at local offsets (k, l) when
   * it checks the box of (n, c): row 3 * (n / 3) + k, column 3 * (c / 3) + l.
   */
  function Visited(n: int, c: int, k: int, l: int): Pos {
    (3 * (n / 3) + k, 3 * (c / 3) + l)
  }

  /** One axis of the box enumeration. */
  lemma BoxOffset(i: int, k: int)
    requires 0 <= i < 9 && 0 <= k < 3
    ensures 0 <= 3 * (i / 3) + k < 9
    ensures (3 * (i / 3) + k) / 3 == i / 3
    ensures 3 * (i / 3) + k == i <==> k == i % 3
  {
    if i < 3 {
      assert i / 3 == 0 && i % 3 == i;
    } else if i < 6 {
      assert i / 3 == 1 && i % 3 == i - 3;
    } else {
      assert i / 3 == 2 && i % 3 == i - 6;
    }
  }

  /** A coordinate in the box of i is recovered from its offset within that box. */
  lemma BoxOffsetOf(i: int, p: int)
    requires 0 <= i < 9 && 0 <= p < 9 && p / 3 == i / 3
    ensures p == 3 * (i / 3) + p % 3
  {
    if p < 3 {
      assert p / 3 == 0;
    } else if p < 6 {
      assert p / 3 == 1;
    } else {
      assert p / 3 == 2;
    }
  }

  /**
   * The box loop visits exactly the 9 cells of the box containing (n, c):
   * every visited cell is on the board and in that box, every cell of that
   * box is visited, no cell is visited twice, and the cell (n, c) itself is
   * visited exactly at offsets (n % 3, c % 3).
   *
   * This states the coverage of the box loop on its own, over positions.
   * The proofs about the validity check and the tally do not call it: they
   * reach the same cells through Box, BoxAt, BoxOffset and BoxOffsetOf.
   */
  lemma BoxLoopCoversBox(n: int, c: int)
    requires InRange(n, c)
    ensures forall k, l :: 0 <= k < 3 && 0 <= l < 3 ==>
      InRange(Visited(n, c, k, l).0, Visited(n, c, k, l).1) &&
      SameBox(n, c, Visited(n, c, k, l).0, Visited(n, c, k, l).1)
    ensures forall p, q :: InRange(p, q) && SameBox(n, c, p, q) ==>
      0 <= p % 3 < 3 && 0 <= q % 3 < 3 && Visited(n, c, p % 3, q % 3) == (p, q)
    ensures forall k, l, k', l' ::
      0 <= k < 3 && 0 <= l < 3 && 0 <= k' < 3 && 0 <= l' < 3 && Visited(n, c, k, l) == Visited(n, c, k', l') ==>
      k == k' && l == l'
    ensures forall k, l :: 0 <= k < 3 && 0 <= l < 3 ==>
      (Visited(n, c, k, l) == (n, c) <==> k == n % 3 && l == c % 3)
  {
    forall k, l | 0 <= k < 3 && 0 <= l < 3
      ensures InRange(Visited(n, c, k, l).0, Visited(n, c, k, l).1)
      ensures SameBox(n, c, Visited(n, c, k, l).0, Visited(n, c, k, l).1)
      ensures Visited(n, c, k, l) == (n, c) <==> k == n % 3 && l == c % 3
    {
      BoxOffset(n, k);
      BoxOffset(c, l);
    }
    forall p, q | InRange(p, q) && SameBox(n, c, p, q)
      ensures 0 <= p % 3 < 3 && 0 <= q % 3 < 3 && Visited(n, c, p % 3, q % 3) == (p, q)
    {
      BoxOffsetOf(n, p);
      BoxOffsetOf(c, q);
    }
  }

  // ---------------------------------------------------------------------------
  // Conflicts

  /** The nine cells of the box of (n, c), row by row, in the order the box loop visits them. */
  function Box(g: seq<seq<int>>, n: int, c: int): (b: seq<int>)
    requires IsGrid(g) && InRange(n, c)
    ensures |b| == 9
  {
    var top, left := 3 * (n / 3), 3 * (c / 3);
    g[top][left .. left + 3] + g[top + 1][left .. left + 3] + g[top + 2][left .. left + 3]
  }

  /** Entry 3 * k + l of the box is the cell the box loop visits at (k, l). */
  lemma BoxAt(g: seq<seq<int>>, n: int, c: int, k: int, l: int)
    requires IsGrid(g) && InRange(n, c) && 0 <= k < 3 && 0 <= l < 3
    ensures InRange(3 * (n / 3) + k, 3 * (c / 3) + l)
    ensures Box(g, n, c)[3 * k + l] == g[3 * (n / 3) + k][3 * (c / 3) + l]
  {
  }

  /** Digit num stands in a peer of (i, j) other than (i, j) itself. */
  ghost predicate Conflict(g: seq<seq<int>>, i: int, j: int, num: int)
    requires IsGrid(g)
  {
    exists p, q :: InRange(p, q) && (p, q) != (i, j) && Peer(i, j, p, q) && g[p][q] == num
  }

  /** A peer other than (i, j) that holds num witnesses a conflict. */
  lemma ConflictAt(g: seq<seq<int>>, i: int, j: int, p: int, q: int, num: int)
    requires IsGrid(g) && InRange(i, j) && InRange(p, q)
    requires (p, q) != (i, j) && Peer(i, j, p, q) && g[p][q] == num
    ensures Conflict(g, i, j, num)
  {
  }

  /**
   * The three scans of the board's validity check: nothing in the row, the
   * column or the box (entry 3 * k + l of Box is offset (k, l) from the box's
   * top-left cell) holds num except (i, j) itself. Together they rule out
   * every conflict.
   */
  lemma ScansRuleOutConflict(g: seq<seq<int>>, i: int, j: int, num: int)
    requires IsGrid(g) && InRange(i, j)
    requires forall q :: 0 <= q < 9 ==> !(g[i][q] == num && j != q)
    requires forall p :: 0 <= p < 9 ==> !(g[p][j] == num && i != p)
    requires forall t :: 0 <= t < 9 && t != 3 * (i % 3) + j % 3 ==> Box(g, i, j)[t] != num
    ensures !Conflict(g, i, j, num)
  {
    forall p, q | InRange(p, q) && (p, q) != (i, j) && SameBox(i, j, p, q)
      ensures g[p][q] != num
    {
      BoxOffsetOf(i, p);
      BoxOffsetOf(j, q);
      var k, l := p % 3, q % 3;
      BoxAt(g, i, j, k, l);
      BoxOffset(i, k);
      BoxOffset(j, l);
    }
  }

  // ---------------------------------------------------------------------------
  // Candidate digits

  /** Digit d stands somewhere in the row, the column or the box of (n, c). */
  ghost predicate Seen(g: seq<seq<int>>, n: int, c: int, d: int)
    requires IsGrid(g)
  {
    exists p, q :: InRange(p, q) && Peer(n, c, p, q) && g[p][q] == d
  }

  /** How many of the digits d..9 are not seen from (n, c). */
  ghost function MissingFrom(g: seq<seq<int>>, n: int, c: int, d: int): (k: nat)
    requires IsGrid(g) && 1 <= d <= 10
    ensures k <= 10 - d
    decreases 10 - d
  {
    if d == 10 then 0
    else (if Seen(g, n, c, d) then 0 else 1) + MissingFrom(g, n, c, d + 1)
  }

  /** The number of digits 1..9 that remain possible at (n, c). */
  ghost function Candidates(g: seq<seq<int>>, n: int, c: int): nat
    requires IsGrid(g)
  {
    MissingFrom(g, n, c, 1)
  }

  /** Candidates counts exactly the digits 1..9 that are not seen from (n, c). */
  lemma {:induction false} CandidatesAreUnseenDigits(g: seq<seq<int>>, n: int, c: int)
    requires IsGrid(g)
    ensures Candidates(g, n, c) == |set d | 1 <= d <= 9 && !Seen(g, n, c, d)|
    ensures 0 <= Candidates(g, n, c) <= 9
  {
    MissingFromIsUnseenCount(g, n, c, 1);
  }

  lemma {:induction false} MissingFromIsUnseenCount(g: seq<seq<int>>, n: int, c: int, d: int)
    requires IsGrid(g) && 1 <= d <= 10
    ensures MissingFrom(g, n, c, d) == |set x | d <= x <= 9 && !Seen(g, n, c, x)|
    decreases 10 - d
  {
    var s := set x | d <= x <= 9 && !Seen(g, n, c, x);
    if d == 10 {
      assert s == {};
    } else {
      MissingFromIsUnseenCount(g, n, c, d + 1);
      var rest := set x | d + 1 <= x <= 9 && !Seen(g, n, c, x);
      if Seen(g, n, c, d) {
        assert s == rest;
      } else {
        assert s == rest + {d};
        assert d !in rest;
      }
    }
  }

  /** On a grid without any digit every cell keeps all nine candidates. */
  lemma BlankCandidates(g: seq<seq<int>>, n: int, c: int)
    requires IsGrid(g)
    requires forall i, j :: InRange(i, j) ==> g[i][j] == 0
    ensures Candidates(g, n, c) == 9
  {
    BlankMissingFrom(g, n, c, 1);
  }

  lemma {:induction false} BlankMissingFrom(g: seq<seq<int>>, n: int, c: int, d: int)
    requires IsGrid(g) && 1 <= d <= 10
    requires forall i, j :: InRange(i, j) ==> g[i][j] == 0
    ensures MissingFrom(g, n, c, d) == 10 - d
    decreases 10 - d
  {
    if d < 10 {
      assert !Seen(g, n, c, d);
      BlankMissingFrom(g, n, c, d + 1);
    }
  }

  // ---------------------------------------------------------------------------
  // The tally the board builds to count candidates

  function Column(g: seq<seq<int>>, c: int): (col: seq<int>)
    requires IsGrid(g) && 0 <= c < 9
    ensures |col| == 9
  {
    seq(9, i requires 0 <= i < 9 => g[i][c])
  }

  /**
   * The number of increments the board's tally slot for digit d receives:
   * one per occurrence of d in the row, one per occurrence in the column and
   * one per occurrence in the box, so a cell that lies in two of them is
   * counted twice.
   */
  ghost function Tally(g: seq<seq<int>>, n: int, c: int, d: int): nat
    requires IsGrid(g) && InRange(n, c)
  {
    multiset(g[n])[d] + multiset(Column(g, c))[d] + multiset(Box(g, n, c))[d]
  }

  /** A digit appears in the box of (n, c) exactly when some cell of that box holds it. */
  lemma InBox(g: seq<seq<int>>, n: int, c: int, d: int)
    requires IsGrid(g) && InRange(n, c)
    ensures d in Box(g, n, c) <==> exists p, q :: InRange(p, q) && SameBox(n, c, p, q) && g[p][q] == d
  {
    var b := Box(g, n, c);
    if d in b {
      var t :| 0 <= t < 9 && b[t] == d;
      var k, l := t / 3, t % 3;
      assert t == 3 * k + l;
      BoxAt(g, n, c, k, l);
      BoxOffset(n, k);
      BoxOffset(c, l);
      assert SameBox(n, c, 3 * (n / 3) + k, 3 * (c / 3) + l);
    }
    if exists p, q :: InRange(p, q) && SameBox(n, c, p, q) && g[p][q] == d {
      var p, q :| InRange(p, q) && SameBox(n, c, p, q) && g[p][q] == d;
      BoxOffsetOf(n, p);
      BoxOffsetOf(c, q);
      BoxAt(g, n, c, p % 3, q % 3);
    }
  }

  /** Scanning one digit: a digit 1..9 adds one to its slot (slot d - 1 for digit d); a blank adds nothing. */
  function Bump(c: seq<int>, num: int): (c': seq<int>)
    requires |c| == 9
    ensures |c'| == 9
    ensures forall d :: 0 <= d < 9 ==> c'[d] == c[d] + (if num == d + 1 then 1 else 0)
  {
    if 1 <= num <= 9 then c[num - 1 := c[num - 1] + 1] else c
  }

  /** The tally `base` after scanning the digits of s from left to right. */
  function Counted(base: seq<int>, s: seq<int>): (c: seq<int>)
    requires |base| == 9
    ensures |c| == 9
  {
    if s == [] then base else Bump(Counted(base, s[..|s| - 1]), s[|s| - 1])
  }

  /** Scanning s adds to each slot exactly the number of occurrences of its digit in s. */
  lemma {:induction false} CountedSlots(base: seq<int>, s: seq<int>)
    requires |base| == 9
    ensures forall d :: 0 <= d < 9 ==> Counted(base, s)[d] == base[d] + multiset(s)[d + 1]
  {
    if s != [] {
      var init, last := s[..|s| - 1], s[|s| - 1];
      CountedSlots(base, init);
      assert s == init + [last];
      assert multiset(s) == multiset(init) + multiset{last};
    }
  }

  /** Scanning one more digit of s bumps the tally by that digit. */
  lemma CountedPrefixStep(base: seq<int>, s: seq<int>, j: int)
    requires |base| == 9 && 0 <= j < |s|
    ensures Counted(base, s[..j + 1]) == Bump(Counted(base, s[..j]), s[j])
  {
    assert s[..j + 1][..j] == s[..j];
  }

  /** Scanning one more digit of a slice of s bumps the tally by that digit. */
  lemma CountedSliceStep(base: seq<int>, s: seq<int>, lo: int, hi: int)
    requires |base| == 9 && 0 <= lo <= hi < |s|
    ensures Counted(base, s[lo..hi + 1]) == Bump(Counted(base, s[lo..hi]), s[hi])
  {
    assert s[lo..hi + 1][..hi - lo] == s[lo..hi];
  }

  /** Scanning a + b is scanning a, then b. */
  lemma {:induction false} CountedAppend(base: seq<int>, a: seq<int>, b: seq<int>)
    requires |base| == 9
    ensures Counted(base, a + b) == Counted(Counted(base, a), b)
  {
    if b == [] {
      assert a + b == a;
    } else {
      var init, last := b[..|b| - 1], b[|b| - 1];
      CountedAppend(base, a, init);
      assert (a + b)[..|a + b| - 1] == a + init;
      assert (a + b)[|a + b| - 1] == last;
    }
  }

  /** The tally `base` after scanning the first k rows of the box of (n, c), each left to right. */
  ghost function CountedBoxRows(base: seq<int>, g: seq<seq<int>>, n: int, c: int, k: int): (t: seq<int>)
    requires |base| == 9 && IsGrid(g) && InRange(n, c) && 0 <= k <= 3
    ensures |t| == 9
  {
    if k == 0 then base
    else
      BoxOffset(n, k - 1);
      BoxOffset(c, 2);
      Counted(CountedBoxRows(base, g, n, c, k - 1), g[3 * (n / 3) + k - 1][3 * (c / 3) .. 3 * (c / 3) + 3])
  }

  /** Scanning the three box rows in turn is scanning the box. */
  lemma CountedWholeBox(base: seq<int>, g: seq<seq<int>>, n: int, c: int)
    requires |base| == 9 && IsGrid(g) && InRange(n, c)
    ensures CountedBoxRows(base, g, n, c, 3) == Counted(base, Box(g, n, c))
  {
    var top, left := 3 * (n / 3), 3 * (c / 3);
    var r0, r1, r2 := g[top][left .. left + 3], g[top + 1][left .. left + 3], g[top + 2][left .. left + 3];
    assert CountedBoxRows(base, g, n, c, 1) == Counted(base, r0);
    assert CountedBoxRows(base, g, n, c, 2) == Counted(Counted(base, r0), r1);
    assert CountedBoxRows(base, g, n, c, 3) == Counted(Counted(Counted(base, r0), r1), r2);
    CountedAppend(base, r0, r1);
    CountedAppend(base, r0 + r1, r2);
  }

  /** The board's first tally loop: every digit of row n, left to right. */
  method TallyRow(g: seq<seq<int>>, n: int, c: seq<int>) returns (t: seq<int>)
    requires IsGrid(g) && 0 <= n < 9 && |c| == 9
    requires forall q :: 0 <= q < 9 ==> 0 <= g[n][q] <= 9
    ensures t == Counted(c, g[n])
  {
    t := c;
    for j := 0 to 9
      invariant t == Counted(c, g[n][..j])
    {
      var num := g[n][j];
      CountedPrefixStep(c, g[n], j);
      if num != 0 {
        t := t[num - 1 := t[num - 1] + 1];
      }
    }
    assert g[n][..9] == g[n];
  }

  /** The board's second tally loop: every digit of column m, top to bottom. */
  method TallyColumn(g: seq<seq<int>>, m: int, c: seq<int>) returns (t: seq<int>)
    requires IsGrid(g) && 0 <= m < 9 && |c| == 9
    requires forall p :: 0 <= p < 9 ==> 0 <= g[p][m] <= 9
    ensures t == Counted(c, Column(g, m))
  {
    t := c;
    ghost var col := Column(g, m);
    for i := 0 to 9
      invariant t == Counted(c, col[..i])
    {
      var num := g[i][m];
      CountedPrefixStep(c, col, i);
      if num != 0 {
        t := t[num - 1 := t[num - 1] + 1];
      }
    }
    assert col[..9] == col;
  }

  /** Every cell of row i = 3 * (n / 3) + k of the box of (n, m) holds a digit when every cell of the box does. */
  lemma BoxRowDigits(g: seq<seq<int>>, n: int, m: int, k: int, i: int)
    requires IsGrid(g) && InRange(n, m) && 0 <= k < 3 && i == 3 * (n / 3) + k
    requires forall p, q :: InRange(p, q) && SameBox(n, m, p, q) ==> 0 <= g[p][q] <= 9
    ensures 0 <= i < 9 && 3 * (m / 3) + 3 <= 9
    ensures forall j :: 3 * (m / 3) <= j < 3 * (m / 3) + 3 ==> 0 <= g[i][j] <= 9
  {
    BoxOffset(n, k);
    BoxOffset(m, 2);
    forall j | 3 * (m / 3) <= j < 3 * (m / 3) + 3
      ensures 0 <= g[i][j] <= 9
    {
      BoxOffset(m, j - 3 * (m / 3));
      assert SameBox(n, m, i, j);
    }
  }

  /** One row of the board's third tally loop: the cells left .. left + 2 of row i. */
  method TallyBoxRow(g: seq<seq<int>>, i: int, left: int, c: seq<int>) returns (t: seq<int>)
    requires IsGrid(g) && 0 <= i < 9 && 0 <= left && left + 3 <= 9 && |c| == 9
    requires forall j :: left <= j < left + 3 ==> 0 <= g[i][j] <= 9
    ensures t == Counted(c, g[i][left .. left + 3])
  {
    t := c;
    for l := 0 to 3
      invariant t == Counted(c, g[i][left .. left + l])
    {
      var j := left + l;
      var num := g[i][j];
      CountedSliceStep(c, g[i], left, j);
      if num != 0 {
        t := t[num - 1 := t[num - 1] + 1];
      }
    }
  }

  /** The board's third tally loop: every digit of the box of (n, m), row by row. */
  method TallyBox(g: seq<seq<int>>, n: int, m: int, c: seq<int>) returns (t: seq<int>)
    requires IsGrid(g) && InRange(n, m) && |c| == 9
    requires forall p, q :: InRange(p, q) && SameBox(n, m, p, q) ==> 0 <= g[p][q] <= 9
    ensures t == Counted(c, Box(g, n, m))
  {
    t := c;
    var boxX := m / 3;
    var boxY := n / 3;
    for k := 0 to 3
      invariant t == CountedBoxRows(c, g, n, m, k)
    {
      var i := 3 * boxY + k;
      BoxRowDigits(g, n, m, k, i);
      t := TallyBoxRow(g, i, 3 * boxX, t);
    }
    CountedWholeBox(c, g, n, m);
  }

  /** A tally built from zeros over the row, then the column, then the box of (n, c) is the full tally. */
  lemma TallyComplete(g: seq<seq<int>>, n: int, c: int,
                      blank: seq<int>, afterRow: seq<int>, afterColumn: seq<int>, tally: seq<int>)
    requires IsGrid(g) && InRange(n, c)
    requires |blank| == 9 && forall d :: 0 <= d < 9 ==> blank[d] == 0
    requires afterRow == Counted(blank, g[n])
    requires afterColumn == Counted(afterRow, Column(g, c))
    requires tally == Counted(afterColumn, Box(g, n, c))
    ensures |tally| == 9
    ensures forall d :: 0 <= d < 9 ==> tally[d] == Tally(g, n, c, d + 1)
  {
    CountedSlots(blank, g[n]);
    CountedSlots(afterRow, Column(g, c));
    CountedSlots(afterColumn, Box(g, n, c));
  }

  /** A tally slot stays at zero exactly when its digit is not seen from (n, c). */
  lemma TallyZeroIffUnseen(g: seq<seq<int>>, n: int, c: int, d: int)
    requires IsGrid(g) && InRange(n, c)
    ensures Tally(g, n, c, d) == 0 <==> !Seen(g, n, c, d)
  {
    InBox(g, n, c, d);
    var col := Column(g, c);
    if Seen(g, n, c, d) {
      var p, q :| InRange(p, q) && Peer(n, c, p, q) && g[p][q] == d;
      if p == n {
        assert g[n][q] == d;
      } else if q == c {
        assert col[p] == d;
      }
    }
    if Tally(g, n, c, d) != 0 {
      if d in g[n] {
        var q :| 0 <= q < 9 && g[n][q] == d;
        assert Peer(n, c, n, q);
      } else if d in col {
        var p :| 0 <= p < 9 && col[p] == d;
        assert Peer(n, c, p, c) && g[p][c] == d;
      }
    }
  }

  /**
   * Counting the zero slots of the full tally (slot d - 1 for digit d)
   * yields the number of candidates.
   */
  lemma ZeroSlotsAreCandidates(g: seq<seq<int>>, n: int, c: int, tally: seq<int>)
    requires IsGrid(g) && InRange(n, c) && |tally| == 9
    requires forall d :: 0 <= d < 9 ==> tally[d] == Tally(g, n, c, d + 1)
    ensures multiset(tally)[0] == Candidates(g, n, c)
  {
    ZeroSlotsAreUnseen(g, n, c, tally);
    ZeroSlotsFrom(g, n, c, tally, 0);
    assert tally[0..] == tally;
  }

  /** Slot d - 1 of the full tally is zero exactly when digit d is not seen from (n, c). */
  lemma ZeroSlotsAreUnseen(g: seq<seq<int>>, n: int, c: int, tally: seq<int>)
    requires IsGrid(g) && InRange(n, c) && |tally| == 9
    requires forall d :: 0 <= d < 9 ==> tally[d] == Tally(g, n, c, d + 1)
    ensures forall d :: 0 <= d < 9 ==> (tally[d] == 0 <==> !Seen(g, n, c, d + 1))
  {
    forall d | 0 <= d < 9
      ensures tally[d] == 0 <==> !Seen(g, n, c, d + 1)
    {
      TallyZeroIffUnseen(g, n, c, d + 1);
    }
  }

  lemma {:induction false} ZeroSlotsFrom(g: seq<seq<int>>, n: int, c: int, tally: seq<int>, k: int)
    requires IsGrid(g) && |tally| == 9 && 0 <= k <= 9
    requires forall d :: 0 <= d < 9 ==> (tally[d] == 0 <==> !Seen(g, n, c, d + 1))
    ensures multiset(tally[k..])[0] == MissingFrom(g, n, c, k + 1)
    decreases 9 - k
  {
    if k < 9 {
      ZeroSlotsFrom(g, n, c, tally, k + 1);
      assert tally[k..] == [tally[k]] + tally[k + 1..];
    }
  }

  // ---------------------------------------------------------------------------
  // The "good empty cell" heuristic

  /** (i, j) is empty and has exactly one candidate. */
  ghost predicate Forced(g: seq<seq<int>>, i: int, j: int)
    requires IsGrid(g)
  {
    InRange(i, j) && g[i][j] == 0 && Candidates(g, i, j) == 1
  }

  /** (i, j) is the first forced cell in row-major order. */
  ghost predicate FirstForced(g: seq<seq<int>>, i: int, j: int)
    requires IsGrid(g)
  {
    Forced(g, i, j) && forall p, q :: InRange(p, q) && Before(p, q, i, j) ==> !Forced(g, p, q)
  }

  /**
   * (i, j) is an empty cell with fewer than 9 candidates, no empty cell has
   * fewer, and every empty cell before it has strictly more.
   */
  ghost predicate Fewest(g: seq<seq<int>>, i: int, j: int)
    requires IsGrid(g)
  {
    InRange(i, j) && g[i][j] == 0 && Candidates(g, i, j) < 9 &&
    (forall p, q :: InRange(p, q) && g[p][q] == 0 ==> Candidates(g, i, j) <= Candidates(g, p, q)) &&
    (forall p, q :: InRange(p, q) && g[p][q] == 0 && Before(p, q, i, j) ==> Candidates(g, i, j) < Candidates(g, p, q))
  }

  /**
   * What the heuristic answers: the first forced cell if there is one, even
   * when an earlier empty cell has no candidate at all; otherwise the first
   * empty cell with the fewest candidates, provided that is below 9;
   * otherwise nothing.
   */
  ghost predicate GoodEmpty(g: seq<seq<int>>, r: Option<Pos>)
    requires IsGrid(g)
  {
    if exists i, j :: Forced(g, i, j) then
      r.Some? && FirstForced(g, r.value.0, r.value.1)
    else
      match r
      case None => forall i, j :: InRange(i, j) && g[i][j] == 0 ==> Candidates(g, i, j) >= 9
      case Some(p) => Fewest(g, p.0, p.1)
  }

  /**
   * The state of the heuristic's row-major scan once every cell before
   * (i, j) has been visited: no forced cell was met; with nothing recorded
   * the running minimum is still 9 and every empty cell met has 9
   * candidates; otherwise the recorded cell is the first empty cell met
   * with the fewest candidates, and `least` is its count, below 9.
   */
  ghost predicate ScannedBefore(g: seq<seq<int>>, i: int, j: int, best: Option<Pos>, least: int)
    requires IsGrid(g)
  {
    (forall p, q :: InRange(p, q) && Before(p, q, i, j) ==> !Forced(g, p, q)) &&
    match best
    case None =>
      least == 9 &&
      forall p, q :: InRange(p, q) && Before(p, q, i, j) && g[p][q] == 0 ==> Candidates(g, p, q) >= 9
    case Some(b) =>
      InRange(b.0, b.1) && Before(b.0, b.1, i, j) && g[b.0][b.1] == 0 &&
      Candidates(g, b.0, b.1) == least < 9 &&
      (forall p, q :: InRange(p, q) && Before(p, q, i, j) && g[p][q] == 0 ==> least <= Candidates(g, p, q)) &&
      (forall p, q :: InRange(p, q) && Before(p, q, b.0, b.1) && g[p][q] == 0 ==> least < Candidates(g, p, q))
  }

  /** Visiting a cell that is filled, or has neither one candidate nor fewer than `least`, changes nothing. */
  lemma ScanSkips(g: seq<seq<int>>, i: int, j: int, best: Option<Pos>, least: int)
    requires IsGrid(g) && InRange(i, j) && ScannedBefore(g, i, j, best, least)
    requires g[i][j] == 0 ==> Candidates(g, i, j) != 1 && Candidates(g, i, j) >= least
    ensures ScannedBefore(g, i, j + 1, best, least)
  {
    assert forall p, q :: InRange(p, q) && Before(p, q, i, j + 1) ==> Before(p, q, i, j) || (p, q) == (i, j);
  }

  /** Visiting an empty cell with fewer candidates than `least` (and not exactly one) records it. */
  lemma ScanRecords(g: seq<seq<int>>, i: int, j: int, best: Option<Pos>, least: int)
    requires IsGrid(g) && InRange(i, j) && ScannedBefore(g, i, j, best, least)
    requires g[i][j] == 0 && Candidates(g, i, j) != 1 && Candidates(g, i, j) < least
    ensures ScannedBefore(g, i, j + 1, Some((i, j)), Candidates(g, i, j))
  {
    assert forall p, q :: InRange(p, q) && Before(p, q, i, j + 1) ==> Before(p, q, i, j) || (p, q) == (i, j);
  }

  /** Meeting an empty cell with exactly one candidate ends the scan with that cell. */
  lemma ScanFindsForced(g: seq<seq<int>>, i: int, j: int, best: Option<Pos>, least: int)
    requires IsGrid(g) && InRange(i, j) && ScannedBefore(g, i, j, best, least)
    requires g[i][j] == 0 && Candidates(g, i, j) == 1
    ensures GoodEmpty(g, Some((i, j)))
  {
    assert Forced(g, i, j);
  }

  /** Finishing row i is starting row i + 1. */
  lemma ScanNextRow(g: seq<seq<int>>, i: int, best: Option<Pos>, least: int)
    requires IsGrid(g) && ScannedBefore(g, i, 9, best, least)
    ensures ScannedBefore(g, i + 1, 0, best, least)
  {
    assert forall p, q :: InRange(p, q) && Before(p, q, i + 1, 0) ==> Before(p, q, i, 9);
  }

  /** A scan that passes every cell without meeting a forced one answers with what it recorded. */
  lemma ScanDone(g: seq<seq<int>>, best: Option<Pos>, least: int)
    requires IsGrid(g) && ScannedBefore(g, 9, 0, best, least)
    ensures GoodEmpty(g, best)
  {
    assert forall p, q :: InRange(p, q) ==> Before(p, q, 9, 0);
    assert !exists p, q :: Forced(g, p, q);
  }

  /** The heuristic's answer is determined by the grid. */
  lemma GoodEmptyUnique(g: seq<seq<int>>, r: Option<Pos>, r': Option<Pos>)
    requires IsGrid(g) && GoodEmpty(g, r) && GoodEmpty(g, r')
    ensures r == r'
  {
    if exists i, j :: Forced(g, i, j) {
      var (i, j) := r.value;
      var (p, q) := r'.value;
      var here, there := Forced(g, i, j), Forced(g, p, q);
      assert Before(i, j, p, q) ==> !here;
      assert Before(p, q, i, j) ==> !there;
    } else {
      if r.Some? {
        var (i, j) := r.value;
        var count := Candidates(g, i, j);
        assert r'.None? ==> count >= 9;
      }
      if r'.Some? {
        var (p, q) := r'.value;
        var count := Candidates(g, p, q);
        assert r.None? ==> count >= 9;
      }
      if r.Some? && r'.Some? {
        var (i, j) := r.value;
        var (p, q) := r'.value;
        var here, there := Candidates(g, i, j), Candidates(g, p, q);
        assert Before(i, j, p, q) ==> there < here;
        assert Before(p, q, i, j) ==> here < there;
      }
    }
  }

  /**
   * On a grid without any digit the heuristic finds nothing, because the
   * running minimum starts at 9 and no cell has fewer candidates than that.
   */
  lemma BlankHasNoGoodEmpty(g: seq<seq<int>>, r: Option<Pos>)
    requires IsGrid(g)
    requires forall i, j :: InRange(i, j) ==> g[i][j] == 0
    requires GoodEmpty(g, r)
    ensures r == None
  {
    forall i, j | InRange(i, j)
      ensures Candidates(g, i, j) == 9
    {
      BlankCandidates(g, i, j);
    }
    assert forall i, j :: !Forced(g, i, j);
  }

  /** On a full grid the heuristic finds nothing. */
  lemma FullHasNoGoodEmpty(g: seq<seq<int>>, r: Option<Pos>)
    requires IsGrid(g) && Full(g) && GoodEmpty(g, r)
    ensures r == None
  {
  }
}
