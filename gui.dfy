/**
 * The Sudoku board and its cells as objects updated in place: cells
 * ("cubes") hold a committed digit, a scratch digit and a selection flag;
 * the board owns the 9x9 cubes, the derived grid `model`, the selected
 * position and a step counter, and answers the validity and empty-cell
 * queries from `model`.
 *
 * Drawing, timing and the canvas are not modelled; every redraw the
 * board requests is a no-op here.
 */
module Gui {
  import opened Grid

  /** One cell of the board. */
  class Cube {
    var value: int
    var temp: int
    var selected: bool

    constructor (value: int)
      ensures this.value == value && temp == 0 && !selected
    {
      this.value := value;
      temp := 0;
      selected := false;
    }

    /** Overwrites the committed digit; guarding committed cells is the board's job. */
    method Set(val: int)
      modifies this
      ensures value == val && temp == old(temp) && selected == old(selected)
    {
      value := val;
    }

    /** Overwrites the scratch digit. */
    method SetTemp(val: int)
      modifies this
      ensures temp == val && value == old(value) && selected == old(selected)
    {
      temp := val;
    }
  }

  class Board {
    const cubes: seq<seq<Cube>>
    var model: seq<seq<int>>
    var selected: Option<Pos>
    var actionSteps: nat

    ghost const Repr: set<Cube>
    /** The position of every cube; it makes the 81 cubes pairwise distinct. */
    ghost const Index: map<Cube, Pos>

    /** The cubes form a 9x9 grid of distinct cubes, all in Repr. */
    ghost predicate Shape() {
      |cubes| == 9 && (forall i :: 0 <= i < 9 ==> |cubes[i]| == 9) &&
      forall i, j :: InRange(i, j) ==>
        cubes[i][j] in Repr && cubes[i][j] in Index && Index[cubes[i][j]] == (i, j)
    }

    /** The committed digits, as a grid. */
    ghost function Values(): (v: seq<seq<int>>)
      requires Shape()
      reads Repr
      ensures IsGrid(v)
      ensures forall i, j :: InRange(i, j) ==> v[i][j] == cubes[i][j].value
    {
      seq(9, i requires 0 <= i < 9 reads Repr =>
        seq(9, j requires 0 <= j < 9 reads Repr => cubes[i][j].value))
    }

    /** The scratch digits, as a grid. */
    ghost function Temps(): (t: seq<seq<int>>)
      requires Shape()
      reads Repr
      ensures IsGrid(t)
      ensures forall i, j :: InRange(i, j) ==> t[i][j] == cubes[i][j].temp
    {
      seq(9, i requires 0 <= i < 9 reads Repr =>
        seq(9, j requires 0 <= j < 9 reads Repr => cubes[i][j].temp))
    }

    /** When no cube's committed digit changed, the grid of committed digits did not. */
    twostate lemma ValuesKept()
      requires Shape()
      requires forall i, j :: InRange(i, j) ==> cubes[i][j].value == old(cubes[i][j].value)
      ensures Values() == old(Values())
    {
      SameGrid(Values(), old(Values()));
    }

    /** When no cube's scratch digit changed, the grid of scratch digits did not. */
    twostate lemma TempsKept()
      requires Shape()
      requires forall i, j :: InRange(i, j) ==> cubes[i][j].temp == old(cubes[i][j].temp)
      ensures Temps() == old(Temps())
    {
      SameGrid(Temps(), old(Temps()));
    }

    /** When every uncommitted cube took its scratch digit as its committed one, the committed grid is the old derived grid. */
    twostate lemma ScratchCommitted()
      requires Shape()
      requires forall i, j :: InRange(i, j) ==>
        cubes[i][j].value == if old(cubes[i][j].value) == 0 then old(cubes[i][j].temp) else old(cubes[i][j].value)
      ensures Values() == ModelOf(old(Values()), old(Temps()))
    {
      SameGrid(Values(), ModelOf(old(Values()), old(Temps())));
    }

    /** The selection flag is set on the selected cube and on no other. */
    ghost predicate SelectionAgrees()
      requires Shape()
      reads this, Repr
    {
      match selected
      case None => forall i, j :: InRange(i, j) ==> !cubes[i][j].selected
      case Some(p) =>
        InRange(p.0, p.1) && forall i, j :: InRange(i, j) ==> (cubes[i][j].selected <==> (i, j) == p)
    }

    /** The board invariant: well-formed cubes, one selection, and `model` derived from the cubes. */
    ghost predicate Valid()
      reads this, Repr
    {
      Shape() && SelectionAgrees() && model == ModelOf(Values(), Temps())
    }

    /**
     * Builds one cube per position holding the given digit, with no scratch
     * digit and no selection, derives `model`, and starts with nothing
     * selected and no steps taken.
     */
    constructor (board: seq<seq<int>>)
      requires |board| >= 9 && forall i :: 0 <= i < 9 ==> |board[i]| >= 9
      ensures Valid() && fresh(Repr)
      ensures forall i, j :: InRange(i, j) ==> cubes[i][j].value == board[i][j] && cubes[i][j].temp == 0
      ensures forall i, j :: InRange(i, j) ==> model[i][j] == board[i][j]
      ensures selected == None && actionSteps == 0
    {
      var rows: seq<seq<Cube>> := [];
      ghost var made: set<Cube> := {};
      ghost var where: map<Cube, Pos> := map[];
      for i := 0 to 9
        invariant |rows| == i
        invariant forall a :: 0 <= a < i ==> |rows[a]| == 9
        invariant forall a, b :: 0 <= a < i && 0 <= b < 9 ==>
          rows[a][b] in made && rows[a][b] in where && where[rows[a][b]] == (a, b)
        invariant forall a, b :: 0 <= a < i && 0 <= b < 9 ==>
          rows[a][b].value == board[a][b] && rows[a][b].temp == 0 && !rows[a][b].selected
        invariant where.Keys == made && fresh(made)
      {
        var row: seq<Cube> := [];
        for j := 0 to 9
          invariant |row| == j
          invariant forall b :: 0 <= b < j ==>
            row[b] in made && row[b] in where && where[row[b]] == (i, b)
          invariant forall b :: 0 <= b < j ==>
            row[b].value == board[i][b] && row[b].temp == 0 && !row[b].selected
          invariant forall a, b :: 0 <= a < i && 0 <= b < 9 ==>
            rows[a][b] in made && rows[a][b] in where && where[rows[a][b]] == (a, b)
          invariant forall a, b :: 0 <= a < i && 0 <= b < 9 ==>
            rows[a][b].value == board[a][b] && rows[a][b].temp == 0 && !rows[a][b].selected
          invariant where.Keys == made && fresh(made)
        {
          var cube := new Cube(board[i][j]);
          row := row + [cube];
          made := made + {cube};
          where := where[cube := (i, j)];
        }
        rows := rows + [row];
      }
      cubes := rows;
      Repr := made;
      Index := where;
      selected := None;
      actionSteps := 0;
      new;
      UpdateModel();
    }

    /** Recomputes `model` from the cubes. */
    method UpdateModel()
      requires Shape() && SelectionAgrees()
      modifies this`model
      ensures Valid()
    {
      model := seq(9, i requires 0 <= i < 9 reads Repr =>
        seq(9, j requires 0 <= j < 9 reads Repr =>
          if cubes[i][j].value != 0 then cubes[i][j].value else cubes[i][j].temp));
      SameGrid(model, ModelOf(Values(), Temps()));
    }

    /** True exactly when no cell of `model` is empty. */
    method IsFinished() returns (finished: bool)
      requires IsGrid(model)
      ensures finished <==> Full(model)
    {
      for i := 0 to 9
        invariant forall p, q :: InRange(p, q) && Before(p, q, i, 0) ==> model[p][q] != 0
      {
        for j := 0 to 9
          invariant forall p, q :: InRange(p, q) && Before(p, q, i, j) ==> model[p][q] != 0
        {
          if model[i][j] == 0 {
            return false;
          }
        }
      }
      return true;
    }

    /** The first empty cell in row-major order, or None when `model` is full. */
    method FindEmpty() returns (r: Option<Pos>)
      requires IsGrid(model)
      ensures r.None? <==> Full(model)
      ensures r.Some? ==> FirstEmpty(model, r.value.0, r.value.1)
    {
      for i := 0 to 9
        invariant forall p, q :: InRange(p, q) && Before(p, q, i, 0) ==> model[p][q] != 0
      {
        for j := 0 to 9
          invariant forall p, q :: InRange(p, q) && Before(p, q, i, j) ==> model[p][q] != 0
        {
          if model[i][j] == 0 {
            return Some((i, j));
          }
        }
      }
      return None;
    }

    /**
     * The empty cell to fill next: the first one with a single candidate,
     * else the first one with the fewest candidates below 9, else None.
     */
    method FindGoodEmpty() returns (r: Option<Pos>)
      requires IsGrid(model)
      requires forall i, j :: InRange(i, j) && model[i][j] == 0 ==> DigitsAround(model, i, j)
      ensures GoodEmpty(model, r)
    {
      var best: Option<Pos> := None;
      var choices := 9;
      for i := 0 to 9
        invariant ScannedBefore(model, i, 0, best, choices)
      {
        for j := 0 to 9
          invariant ScannedBefore(model, i, j, best, choices)
        {
          if model[i][j] == 0 {
            var c := Choices(i, j);
            if c == 1 {
              ScanFindsForced(model, i, j, best, choices);
              return Some((i, j));
            } else if c < choices {
              ScanRecords(model, i, j, best, choices);
              best := Some((i, j));
              choices := c;
            } else {
              ScanSkips(model, i, j, best, choices);
            }
          } else {
            ScanSkips(model, i, j, best, choices);
          }
        }
        ScanNextRow(model, i, best, choices);
      }
      ScanDone(model, best, choices);
      return best;
    }

    /**
     * False when nothing is selected; otherwise true exactly when `num`
     * stands in no other cell of the selected cell's row, column or box.
     */
    method IsValid(num: int) returns (ok: bool)
      requires IsGrid(model) && (selected.Some? ==> InRange(selected.value.0, selected.value.1))
      ensures ok <==> selected.Some? && !Conflict(model, selected.value.0, selected.value.1, num)
    {
      if selected == None {
        return false;
      }
      var (i, j) := selected.value;
      ghost var (si, sj) := (i, j);

      for k := 0 to 9
        invariant forall q :: 0 <= q < k ==> !(model[i][q] == num && j != q)
      {
        if model[i][k] == num && j != k {
          ConflictAt(model, si, sj, i, k, num);
          return false;
        }
      }

      for k := 0 to 9
        invariant forall p :: 0 <= p < k ==> !(model[p][j] == num && i != p)
      {
        if model[k][j] == num && i != k {
          ConflictAt(model, si, sj, k, j, num);
          return false;
        }
      }

      var boxX := j / 3;
      var boxY := i / 3;
      i := i % 3;
      assert 0 <= boxX < 3 && 0 <= boxY < 3;
      j := j % 3;
      ghost var box := Box(model, si, sj);
      for k := 0 to 3
        invariant forall t :: 0 <= t < 3 * k && t != 3 * i + j ==> box[t] != num
      {
        for l := 0 to 3
          invariant forall t :: 0 <= t < 3 * k + l && t != 3 * i + j ==> box[t] != num
        {
          var m := 3 * boxX + l;
          var n := 3 * boxY + k;
          BoxAt(model, si, sj, k, l);
          if model[n][m] == num && (k != i || l != j) {
            BoxOffset(si, k);
            BoxOffset(sj, l);
            ConflictAt(model, si, sj, n, m, num);
            return false;
          }
        }
      }
      ScansRuleOutConflict(model, si, sj, num);
      return true;
    }

    /**
     * The number of candidate digits at (n, m), counted through a tally of
     * digit occurrences in the row, the column and the box of (n, m).
     */
    method Choices(n: int, m: int) returns (count: int)
      requires IsGrid(model) && InRange(n, m) && DigitsAround(model, n, m)
      ensures count == Candidates(model, n, m)
      ensures 0 <= count <= 9
    {
      var c := [0, 0, 0, 0, 0, 0, 0, 0, 0];
      ghost var blank := c;
      c := TallyRow(model, n, c);
      ghost var afterRow := c;
      c := TallyColumn(model, m, c);
      ghost var afterColumn := c;
      c := TallyBox(model, n, m, c);
      TallyComplete(model, n, m, blank, afterRow, afterColumn, c);
      ZeroSlotsAreCandidates(model, n, m, c);
      CandidatesAreUnseenDigits(model, n, m);
      count := multiset(c)[0];
    }

    /**
     * Commits `val` in the selected cell when it holds no committed digit,
     * refreshing `model` and counting one step; on a committed cell nothing
     * changes.
     */
    method Place(val: int)
      requires Valid() && selected.Some?
      modifies this`model, this`actionSteps, Repr
      ensures Valid() && selected == old(selected) && Temps() == old(Temps())
      ensures var (row, col) := selected.value;
        if old(cubes[row][col].value) == 0 then
          Values() == old(Values())[row := old(Values())[row][col := val]] &&
          actionSteps == old(actionSteps) + 1
        else
          Values() == old(Values()) && model == old(model) && actionSteps == old(actionSteps)
    {
      var (row, col) := selected.value;
      if cubes[row][col].value == 0 {
        cubes[row][col].Set(val);
        SameGrid(Values(), old(Values())[row := old(Values())[row][col := val]]);
        TempsKept();
        UpdateModel();
        actionSteps := actionSteps + 1;
      }
    }

    /**
     * Commits every uncommitted cell's scratch digit (0 included) without
     * recomputing `model` and without counting a step; the derived grid
     * is still exact afterwards.
     */
    method ConfirmAll()
      requires Valid()
      modifies Repr
      ensures Valid()
      ensures Values() == ModelOf(old(Values()), old(Temps())) && Temps() == old(Temps())
      ensures model == old(model) && selected == old(selected) && actionSteps == old(actionSteps)
    {
      for i := 0 to 9
        invariant forall p, q :: InRange(p, q) ==>
          cubes[p][q].temp == old(cubes[p][q].temp) && cubes[p][q].selected == old(cubes[p][q].selected) &&
          cubes[p][q].value == if Before(p, q, i, 0) && old(cubes[p][q].value) == 0
                               then old(cubes[p][q].temp) else old(cubes[p][q].value)
      {
        for j := 0 to 9
          invariant forall p, q :: InRange(p, q) ==>
            cubes[p][q].temp == old(cubes[p][q].temp) && cubes[p][q].selected == old(cubes[p][q].selected) &&
            cubes[p][q].value == if Before(p, q, i, j) && old(cubes[p][q].value) == 0
                                 then old(cubes[p][q].temp) else old(cubes[p][q].value)
        {
          if cubes[i][j].value == 0 {
            var val := cubes[i][j].temp;
            cubes[i][j].Set(val);
          }
        }
      }
      ScratchCommitted();
      TempsKept();
      ConfirmKeepsModel(old(Values()), old(Temps()));
    }

    /**
     * Writes `val` as the selected cell's scratch digit when it holds no
     * committed digit, refreshing `model`; counts one step either way.
     */
    method Sketch(val: int)
      requires Valid() && selected.Some?
      modifies this`model, this`actionSteps, Repr
      ensures Valid() && selected == old(selected) && Values() == old(Values())
      ensures actionSteps == old(actionSteps) + 1
      ensures var (row, col) := selected.value;
        if old(cubes[row][col].value) == 0 then
          Temps() == old(Temps())[row := old(Temps())[row][col := val]]
        else
          Temps() == old(Temps()) && model == old(model)
    {
      var (row, col) := selected.value;
      if cubes[row][col].value == 0 {
        cubes[row][col].SetTemp(val);
        SameGrid(Values(), old(Values()));
        SameGrid(Temps(), old(Temps())[row := old(Temps())[row][col := val]]);
        UpdateModel();
      }
      actionSteps := actionSteps + 1;
    }

    /** The number of steps taken so far. */
    method Steps() returns (steps: nat)
      ensures steps == actionSteps
    {
      return actionSteps;
    }

    /** Moves the selection flag to (row, col) and records that position. */
    method Select(row: int, col: int)
      requires Valid() && InRange(row, col)
      modifies this`selected, Repr
      ensures Valid() && selected == Some((row, col))
      ensures forall i, j :: InRange(i, j) ==> (cubes[i][j].selected <==> (i, j) == (row, col))
      ensures Values() == old(Values()) && Temps() == old(Temps())
      ensures model == old(model) && actionSteps == old(actionSteps)
    {
      // Clear every selection flag, the target's included, then set the target's.
      for i := 0 to 9
        invariant forall p, q :: InRange(p, q) ==>
          cubes[p][q].value == old(cubes[p][q].value) && cubes[p][q].temp == old(cubes[p][q].temp) &&
          (Before(p, q, i, 0) ==> !cubes[p][q].selected)
      {
        for j := 0 to 9
          invariant forall p, q :: InRange(p, q) ==>
            cubes[p][q].value == old(cubes[p][q].value) && cubes[p][q].temp == old(cubes[p][q].temp) &&
            (Before(p, q, i, j) ==> !cubes[p][q].selected)
        {
          cubes[i][j].selected := false;
        }
      }
      cubes[row][col].selected := true;
      selected := Some((row, col));
      ValuesKept();
      TempsKept();
    }

    /**
     * Erases the selected cell's scratch digit when it holds no committed
     * digit, refreshing `model` and counting one step; on a committed cell
     * nothing changes.
     */
    method Clear()
      requires Valid() && selected.Some?
      modifies this`model, this`actionSteps, Repr
      ensures Valid() && selected == old(selected) && Values() == old(Values())
      ensures var (row, col) := selected.value;
        if old(cubes[row][col].value) == 0 then
          Temps() == old(Temps())[row := old(Temps())[row][col := 0]] &&
          actionSteps == old(actionSteps) + 1
        else
          Temps() == old(Temps()) && model == old(model) && actionSteps == old(actionSteps)
    {
      var (row, col) := selected.value;
      if cubes[row][col].value == 0 {
        cubes[row][col].SetTemp(0);
        SameGrid(Values(), old(Values()));
        SameGrid(Temps(), old(Temps())[row := old(Temps())[row][col := 0]]);
        UpdateModel();
        actionSteps := actionSteps + 1;
      }
    }
  }
}
