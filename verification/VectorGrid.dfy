/** Vector Grid Wars: units with concepts on a square board, and the judge that counts them. */
module VectorGrid {
  import opened Text
  import opened Wrappers

  const AGENT_1 := "agent-1"
  const AGENT_2 := "agent-2"
  const JUDGED_SIZE := 10

  datatype Cell = Cell(owner: Option<string>, concept: Option<string>)

  const EMPTY_CELL := Cell(None, None)

  type Row = seq<Cell>
  type Grid = seq<Row>

  datatype State = State(
    gridSize: nat, conceptMaxLength: int, grid: Grid, turn: int, maxTurns: int, gameOver: bool)

  /** A coordinate that is missing or not an integer is -1; the source refuses it either way. */
  datatype Action =
    | GetBoard
    | PlaceUnit(x: int, y: int, concept: string)
    | MoveUnit(fromX: int, fromY: int, toX: int, toY: int)
    | OtherTool

  datatype Refusal =
    GameOver | InvalidTool | OutOfBounds | InvalidConcept | ConceptTooLong | Occupied | NotOwner | NotAdjacent

  function Initialize(gridSize: nat, conceptMaxLength: int, maxTurns: int): State {
    State(gridSize, conceptMaxLength, seq(gridSize, _ => seq(gridSize, _ => EMPTY_CELL)), 1, maxTurns, false)
  }

  /** Odd turns belong to the first agent. */
  function CurrentPlayer(s: State): string {
    if s.turn % 2 == 1 then AGENT_1 else AGENT_2
  }

  predicate InBounds(x: int, y: int, size: int) {
    0 <= x < size && 0 <= y < size
  }

  /** `state.grid[y]?.[x]`. */
  function CellAt(grid: Grid, x: int, y: int): Option<Cell> {
    if 0 <= y < |grid| && 0 <= x < |grid[y]| then Some(grid[y][x]) else None
  }

  function Distance(a: int, b: int): int {
    if a < b then b - a else a - b
  }

  function Validate(s: State, a: Action): Option<Refusal> {
    if a.GetBoard? then None
    else if s.gameOver || s.turn > s.maxTurns then Some(GameOver)
    else match a
      case PlaceUnit(x, y, concept) =>
        if !InBounds(x, y, s.gridSize) then Some(OutOfBounds)
        else if Trim(concept) == "" then Some(InvalidConcept)
        else if |concept| > s.conceptMaxLength then Some(ConceptTooLong)
        else
          var cell := CellAt(s.grid, x, y);
          if cell.None? || cell.value.owner.Some? then Some(Occupied) else None
      case MoveUnit(fromX, fromY, toX, toY) =>
        if !InBounds(fromX, fromY, s.gridSize) || !InBounds(toX, toY, s.gridSize) then Some(OutOfBounds)
        else
          var source, target := CellAt(s.grid, fromX, fromY), CellAt(s.grid, toX, toY);
          if source.None? || source.value.owner != Some(CurrentPlayer(s)) then Some(NotOwner)
          else if target.None? || target.value.owner.Some? then Some(Occupied)
          else
            var dx, dy := Distance(toX, fromX), Distance(toY, fromY);
            if (dx == 1 && dy == 0) || (dx == 0 && dy == 1) then None else Some(NotAdjacent)
      case _ => Some(InvalidTool)
  }

  function SetCell(grid: Grid, x: nat, y: nat, cell: Cell): Grid
    requires CellAt(grid, x, y).Some?
  {
    grid[y := grid[y][x := cell]]
  }

  /** What a tool does to the board; a position off the board writes nothing. */
  function ApplyToGrid(s: State, a: Action): Grid {
    match a
    case PlaceUnit(x, y, concept) =>
      if CellAt(s.grid, x, y).Some? then SetCell(s.grid, x, y, Cell(Some(CurrentPlayer(s)), Some(Trim(concept))))
          else s.grid
    case MoveUnit(fromX, fromY, toX, toY) =>
      if CellAt(s.grid, fromX, fromY).Some? && CellAt(s.grid, toX, toY).Some? then
        SetCell(SetCell(s.grid, fromX, fromY, EMPTY_CELL), toX, toY, s.grid[fromY][fromX])
      else s.grid
    case _ => s.grid
  }

  function Apply(s: State, a: Action): State {
    match a
    case GetBoard => s
    case OtherTool => s
    case _ => s.(grid := ApplyToGrid(s, a), turn := s.turn + 1)
  }

  method ApplyAction(s: State, a: Action) returns (next: State)
    ensures next == Apply(s, a)
  {
    if a.GetBoard? {
      return s;
    }
    var grid := s.grid;
    var turn := s.turn;
    if a.PlaceUnit? {
      if CellAt(grid, a.x, a.y).Some? {
        var row := grid[a.y];
        row := row[a.x := Cell(Some(CurrentPlayer(s)), Some(Trim(a.concept)))];
        grid := grid[a.y := row];
      }
      turn := turn + 1;
    } else if a.MoveUnit? {
      if CellAt(grid, a.fromX, a.fromY).Some? && CellAt(grid, a.toX, a.toY).Some? {
        var unit := grid[a.fromY][a.fromX];
        grid := grid[a.fromY := grid[a.fromY][a.fromX := EMPTY_CELL]];
        grid := grid[a.toY := grid[a.toY][a.toX := unit]];
      }
      turn := turn + 1;
    }
    next := s.(grid := grid, turn := turn);
  }

  // ------------------------------------------------------------------ counting

  function RowCount(row: Row, owner: string): nat {
    if row == [] then 0
    else RowCount(row[..|row| - 1], owner) + if row[|row| - 1].owner == Some(owner) then 1 else 0
  }

  /** `countControlledCells`. */
  function GridCount(grid: Grid, owner: string): nat {
    if grid == [] then 0 else GridCount(grid[..|grid| - 1], owner) + RowCount(grid[|grid| - 1], owner)
  }

  function Cells(grid: Grid): multiset<Cell> {
    if grid == [] then multiset{} else Cells(grid[..|grid| - 1]) + multiset(grid[|grid| - 1])
  }

  function Owned(cell: Cell, owner: string): int {
    if cell.owner == Some(owner) then 1 else 0
  }

  lemma {:induction false} RowCountAfterSet(row: Row, x: nat, cell: Cell, owner: string)
    requires x < |row|
    ensures RowCount(row[x := cell], owner) == RowCount(row, owner) - Owned(row[x], owner) + Owned(cell, owner)
  {
    var n := |row| - 1;
    if x < n {
      assert row[x := cell][..n] == row[..n][x := cell];
      RowCountAfterSet(row[..n], x, cell, owner);
    } else {
      assert row[x := cell][..n] == row[..n];
    }
  }

  /** Writing a cell of a board, seen from its last row. */
  lemma SetCellInit(grid: Grid, x: nat, y: nat, cell: Cell)
    requires CellAt(grid, x, y).Some?
    ensures var n := |grid| - 1;
      var after := SetCell(grid, x, y, cell);
      && |after| == |grid|
      && if y < n then CellAt(grid[..n], x, y).Some? && after[..n] == SetCell(grid[..n], x, y, cell)
          && after[n] == grid[n]
         else after[..n] == grid[..n] && after[n] == grid[n][x := cell]
  {
  }

  lemma {:induction false} GridCountAfterSet(grid: Grid, x: nat, y: nat, cell: Cell, owner: string)
    requires CellAt(grid, x, y).Some?
    ensures GridCount(SetCell(grid, x, y, cell), owner)
      == GridCount(grid, owner) - Owned(grid[y][x], owner) + Owned(cell, owner)
  {
    SetCellInit(grid, x, y, cell);
    RowCountAfterSet(grid[y], x, cell, owner);
    hide SetCell, RowCount;
    if y < |grid| - 1 {
      GridCountAfterSet(grid[..|grid| - 1], x, y, cell, owner);
    }
  }

  lemma RowCells(row: Row, x: nat, cell: Cell)
    requires x < |row|
    ensures row[x] in multiset(row)
    ensures multiset(row[x := cell]) == multiset(row) - multiset{row[x]} + multiset{cell}
  {
  }

  lemma {:induction false} CellsAfterSet(grid: Grid, x: nat, y: nat, cell: Cell)
    requires CellAt(grid, x, y).Some?
    ensures grid[y][x] in Cells(grid)
    ensures Cells(SetCell(grid, x, y, cell)) == Cells(grid) - multiset{grid[y][x]} + multiset{cell}
  {
    var n := |grid| - 1;
    SetCellInit(grid, x, y, cell);
    RowCells(grid[y], x, cell);
    hide SetCell;
    if y < n {
      CellsAfterSet(grid[..n], x, y, cell);
      Swap(Cells(grid[..n]), multiset(grid[n]), grid[y][x], cell);
    } else {
      Swap(multiset(grid[n]), Cells(grid[..n]), grid[y][x], cell);
    }
  }

  lemma Swap(a: multiset<Cell>, b: multiset<Cell>, old_: Cell, new_: Cell)
    requires old_ in a
    ensures (a - multiset{old_} + multiset{new_}) + b == (a + b) - multiset{old_} + multiset{new_}
    ensures b + (a - multiset{old_} + multiset{new_}) == (b + a) - multiset{old_} + multiset{new_}
  {
  }

  // ------------------------------------------------------------------ the judge

  function Truncate<T>(s: seq<T>): seq<T> {
    if |s| <= JUDGED_SIZE then s else s[..JUDGED_SIZE]
  }

  /** The part of the board that the mock judge looks at. */
  function Judged(grid: Grid): Grid {
    var rows := Truncate(grid);
    seq(|rows|, y requires 0 <= y < |rows| => Truncate(rows[y]))
  }

  /** The agent with the higher count, if there is one. */
  function Leader(count1: int, count2: int): Option<string> {
    if count1 > count2 then Some(AGENT_1) else if count2 > count1 then Some(AGENT_2) else None
  }

  /** The agent who controls more cells of the whole board. */
  function ControlLeader(grid: Grid): Option<string> {
    Leader(GridCount(grid, AGENT_1), GridCount(grid, AGENT_2))
  }

  lemma LeaderHasMore(grid: Grid)
    ensures ControlLeader(grid) == Some("agent-1") <==> GridCount(grid, "agent-1") > GridCount(grid, "agent-2")
    ensures ControlLeader(grid) == Some("agent-2") <==> GridCount(grid, "agent-2") > GridCount(grid, "agent-1")
    ensures ControlLeader(grid) == None <==> GridCount(grid, "agent-1") == GridCount(grid, "agent-2")
  {
    hide GridCount;
  }

  method MockEvaluate(s: State) returns (p1Units: nat, p2Units: nat, winner: Option<string>)
    ensures p1Units == GridCount(Judged(s.grid), AGENT_1) && p2Units == GridCount(Judged(s.grid), AGENT_2)
    ensures p1Units == GridCount(s.grid, AGENT_1) <==> !FarUnit(s.grid, AGENT_1)
    ensures p2Units == GridCount(s.grid, AGENT_2) <==> !FarUnit(s.grid, AGENT_2)
    ensures winner == ControlLeader(Judged(s.grid))
    ensures (winner == Some("agent-1") <==> p1Units > p2Units) && (winner == Some("agent-2") <==> p2Units > p1Units)
    ensures winner == None <==> p1Units == p2Units
    ensures !FarUnit(s.grid, AGENT_1) && !FarUnit(s.grid, AGENT_2) ==> winner == ControlLeader(s.grid)
  {
    hide GridCount, RowCount, Judged, FarUnit;
    JudgedCount(s.grid, AGENT_1);
    JudgedCount(s.grid, AGENT_2);
    p1Units, p2Units := 0, 0;
    ghost var judged := Judged(s.grid);
    NothingCounted();
    for y := 0 to JUDGED_SIZE
      invariant p1Units == GridCount(judged[..Least(y, |judged|)], AGENT_1)
      invariant p2Units == GridCount(judged[..Least(y, |judged|)], AGENT_2)
    {
      ghost var above1, above2 := p1Units, p2Units;
      ghost var row := if y < |judged| then judged[y] else [];
      for x := 0 to JUDGED_SIZE
        invariant p1Units == above1 + RowCount(row[..Least(x, |row|)], AGENT_1)
        invariant p2Units == above2 + RowCount(row[..Least(x, |row|)], AGENT_2)
      {
        var cell := CellAt(s.grid, x, y);
        JudgedCell(s.grid, x, y);
        if cell.None? {
          continue;
        }
        RowCountStep(row, x, AGENT_1);
        RowCountStep(row, x, AGENT_2);
        if cell.value.owner == Some(AGENT_1) {
          p1Units := p1Units + 1;
        }
        if cell.value.owner == Some(AGENT_2) {
          p2Units := p2Units + 1;
        }
      }
      JudgedSize(s.grid);
      assert row[..|row|] == row;
      if y < |judged| {
        GridCountStep(judged, y, AGENT_1);
        GridCountStep(judged, y, AGENT_2);
      }
    }
    JudgedSize(s.grid);
    assert judged[..|judged|] == judged;
    winner := None;
    if p1Units > p2Units {
      winner := Some(AGENT_1);
    }
    if p2Units > p1Units {
      winner := Some(AGENT_2);
    }
  }

  lemma NothingCounted()
    ensures forall owner :: GridCount([], owner) == 0 && RowCount([], owner) == 0
  {
  }

  lemma RowCountStep(row: Row, x: nat, owner: string)
    requires x < |row|
    ensures RowCount(row[..x + 1], owner) == RowCount(row[..x], owner) + Owned(row[x], owner)
  {
    assert row[..x + 1][..x] == row[..x];
  }

  lemma GridCountStep(grid: Grid, y: nat, owner: string)
    requires y < |grid|
    ensures GridCount(grid[..y + 1], owner) == GridCount(grid[..y], owner) + RowCount(grid[y], owner)
  {
    assert grid[..y + 1][..y] == grid[..y];
  }

  lemma JudgedSize(grid: Grid)
    ensures |Judged(grid)| <= JUDGED_SIZE && forall row | row in Judged(grid) :: |row| <= JUDGED_SIZE
  {
  }

  /** Inside the first ten rows and columns the judged part is the board. */
  lemma JudgedCell(grid: Grid, x: nat, y: nat)
    requires x < JUDGED_SIZE && y < JUDGED_SIZE
    ensures CellAt(Judged(grid), x, y) == CellAt(grid, x, y)
  {
  }

  function Least(a: nat, b: nat): nat {
    if a < b then a else b
  }

  ghost predicate Square(s: State) {
    |s.grid| == s.gridSize && forall y | 0 <= y < |s.grid| :: |s.grid[y]| == s.gridSize
  }

  predicate RowFar(row: Row, y: nat, owner: string) {
    exists x | 0 <= x < |row| :: (x >= JUDGED_SIZE || y >= JUDGED_SIZE) && row[x].owner == Some(owner)
  }

  /** The owner has a unit outside the first ten rows and columns. */
  predicate FarUnit(grid: Grid, owner: string) {
    exists y | 0 <= y < |grid| :: RowFar(grid[y], y, owner)
  }

  /** What the first `n` cells of a row miss. */
  lemma {:induction false} RowTail(row: Row, n: nat, owner: string)
    requires n <= |row|
    ensures RowCount(row[..n], owner) <= RowCount(row, owner)
    ensures RowCount(row[..n], owner) == RowCount(row, owner) <==>
      forall x | n <= x < |row| :: row[x].owner != Some(owner)
  {
    if n < |row| {
      assert row[..|row| - 1][..n] == row[..n];
      RowTail(row[..|row| - 1], n, owner);
    } else {
      assert row[..n] == row;
    }
  }

  /** The judged part of a board, seen from its last row. */
  lemma JudgedInit(grid: Grid)
    requires grid != []
    ensures var n := |grid| - 1;
      Judged(grid) == if n < JUDGED_SIZE then Judged(grid[..n]) + [Truncate(grid[n])] else Judged(grid[..n])
  {
  }

  lemma FarInit(grid: Grid, owner: string)
    requires grid != []
    ensures var n := |grid| - 1;
      FarUnit(grid, owner) <==> FarUnit(grid[..n], owner) || RowFar(grid[n], n, owner)
  {
    hide RowFar;
    var n := |grid| - 1;
    if FarUnit(grid, owner) && !RowFar(grid[n], n, owner) {
      var y :| 0 <= y < |grid| && RowFar(grid[y], y, owner);
      assert RowFar(grid[..n][y], y, owner);
    }
    if FarUnit(grid[..n], owner) {
      var y :| 0 <= y < n && RowFar(grid[..n][y], y, owner);
      assert RowFar(grid[y], y, owner);
    }
  }

  lemma RowJudged(row: Row, y: nat, owner: string)
    ensures var judged := if y < JUDGED_SIZE then RowCount(Truncate(row), owner) else 0;
      judged <= RowCount(row, owner) && (judged == RowCount(row, owner) <==> !RowFar(row, y, owner))
  {
    var n := if y >= JUDGED_SIZE then 0 else if |row| <= JUDGED_SIZE then |row| else JUDGED_SIZE;
    RowTail(row, n, owner);
    assert n == |row| ==> row[..n] == row;
    assert RowFar(row, y, owner) <==> exists x | n <= x < |row| :: row[x].owner == Some(owner);
  }

  /** The judge never counts more units than an agent has, and counts all of them exactly when none is far out. */
  lemma {:induction false} JudgedCount(grid: Grid, owner: string)
    ensures GridCount(Judged(grid), owner) <= GridCount(grid, owner)
    ensures GridCount(Judged(grid), owner) == GridCount(grid, owner) <==> !FarUnit(grid, owner)
  {
    if grid != [] {
      var n := |grid| - 1;
      JudgedCount(grid[..n], owner);
      JudgedInit(grid);
      FarInit(grid, owner);
      RowJudged(grid[n], n, owner);
      hide Judged, FarUnit, RowFar, RowCount, Truncate;
      assert n < JUDGED_SIZE ==> Judged(grid)[..|Judged(grid)| - 1] == Judged(grid[..n]);
    }
  }

  // ---------------------------------------------------------------------- runs

  /** Cells are empty or hold a unit with a concept. */
  ghost predicate CleanCells(grid: Grid) {
    forall y, x | 0 <= y < |grid| && 0 <= x < |grid[y]| :: grid[y][x].owner.None? ==> grid[y][x] == EMPTY_CELL
  }

  predicate Accepts(s: State, a: Action) {
    Validate(s, a).None?
  }

  /** An accepted placement gives the current player one cell more and nobody else anything. */
  lemma {:induction false} PlacementAddsOne(s: State, a: Action, owner: string)
    requires a.PlaceUnit? && Accepts(s, a)
    ensures GridCount(Apply(s, a).grid, owner) == GridCount(s.grid, owner) + if owner == CurrentPlayer(s) then 1 else 0
  {
    GridCountAfterSet(s.grid, a.x, a.y, Cell(Some(CurrentPlayer(s)), Some(Trim(a.concept))), owner);
  }

  /** A placement writes its own cell with the mover's name and the trimmed concept, and no other cell. */
  lemma {:induction false} PlacementFrame(s: State, a: Action, x: int, y: int)
    requires a.PlaceUnit? && Accepts(s, a)
    ensures CellAt(Apply(s, a).grid, x, y)
      == if (x, y) == (a.x, a.y)
         then Some(Cell(Some(if s.turn % 2 == 1 then "agent-1" else "agent-2"), Some(Trim(a.concept))))
         else CellAt(s.grid, x, y)
  {
    hide Trim;
    CellAtAfterSet(s.grid, a.x, a.y, Cell(Some(CurrentPlayer(s)), Some(Trim(a.concept))), x, y);
  }

  /**
   * On a square board exactly these tools are accepted: looking, a short concept on an empty cell, and a step of one's
   * own unit to an empty cell beside it, while the match lasts.
   */
  lemma {:induction false} AcceptedExactly(s: State, a: Action)
    requires Square(s)
    ensures Accepts(s, a) <==>
      match a
      case GetBoard => true
      case OtherTool => false
      case PlaceUnit(x, y, concept) =>
        && !s.gameOver && s.turn <= s.maxTurns && 0 <= x < s.gridSize && 0 <= y < s.gridSize
        && s.grid[y][x].owner.None? && Trim(concept) != "" && |concept| <= s.conceptMaxLength
      case MoveUnit(fromX, fromY, toX, toY) =>
        && !s.gameOver && s.turn <= s.maxTurns
        && 0 <= fromX < s.gridSize && 0 <= fromY < s.gridSize && 0 <= toX < s.gridSize && 0 <= toY < s.gridSize
        && s.grid[fromY][fromX].owner == Some(if s.turn % 2 == 1 then "agent-1" else "agent-2")
        && s.grid[toY][toX].owner.None?
        && ((toX == fromX && (toY == fromY + 1 || toY == fromY - 1))
            || (toY == fromY && (toX == fromX + 1 || toX == fromX - 1)))
  {
    hide Trim;
  }

  /** What the validation of a move guarantees about its two cells. */
  lemma MoveFacts(s: State, a: Action)
    requires a.MoveUnit? && Accepts(s, a) && CleanCells(s.grid)
    ensures CellAt(s.grid, a.fromX, a.fromY).Some? && CellAt(s.grid, a.toX, a.toY) == Some(EMPTY_CELL)
    ensures s.grid[a.fromY][a.fromX].owner == Some(CurrentPlayer(s)) && (a.fromX, a.fromY) != (a.toX, a.toY)
    ensures Distance(a.fromX, a.toX) + Distance(a.fromY, a.toY) == 1
    ensures Apply(s, a).grid == SetCell(SetCell(s.grid, a.fromX, a.fromY, EMPTY_CELL), a.toX, a.toY,
      s.grid[a.fromY][a.fromX])
  {
  }

  lemma CellAtAfterSet(grid: Grid, x: nat, y: nat, cell: Cell, u: int, v: int)
    requires CellAt(grid, x, y).Some?
    ensures CellAt(SetCell(grid, x, y, cell), u, v) == if (u, v) == (x, y) then Some(cell) else CellAt(grid, u, v)
  {
  }

  lemma {:induction false} MoveFrame(s: State, a: Action, x: int, y: int)
    requires a.MoveUnit? && Accepts(s, a) && CleanCells(s.grid)
    ensures CellAt(Apply(s, a).grid, x, y)
      == if (x, y) == (a.toX, a.toY) then CellAt(s.grid, a.fromX, a.fromY)
         else if (x, y) == (a.fromX, a.fromY) then CellAt(s.grid, a.toX, a.toY)
         else CellAt(s.grid, x, y)
  {
    MoveFacts(s, a);
    hide Validate, Apply, SetCell, CleanCells;
    var lifted := SetCell(s.grid, a.fromX, a.fromY, EMPTY_CELL);
    CellAtAfterSet(s.grid, a.fromX, a.fromY, EMPTY_CELL, x, y);
    CellAtAfterSet(s.grid, a.fromX, a.fromY, EMPTY_CELL, a.toX, a.toY);
    CellAtAfterSet(lifted, a.toX, a.toY, s.grid[a.fromY][a.fromX], x, y);
  }

  /** An accepted move swaps a unit with an adjacent empty cell: the board keeps its cells and every count. */
  lemma {:induction false} MovePermutesCells(s: State, a: Action, owner: string)
    requires a.MoveUnit? && Accepts(s, a) && CleanCells(s.grid)
    ensures var g := Apply(s, a).grid;
      Cells(g) == Cells(s.grid) && GridCount(g, owner) == GridCount(s.grid, owner)
  {
    MoveFacts(s, a);
    hide Validate, Apply, SetCell, CleanCells, Cells, GridCount;
    var lifted := SetCell(s.grid, a.fromX, a.fromY, EMPTY_CELL);
    CellAtAfterSet(s.grid, a.fromX, a.fromY, EMPTY_CELL, a.toX, a.toY);
    var unit := s.grid[a.fromY][a.fromX];
    CellsAfterSet(s.grid, a.fromX, a.fromY, EMPTY_CELL);
    CellsAfterSet(lifted, a.toX, a.toY, unit);
    GridCountAfterSet(s.grid, a.fromX, a.fromY, EMPTY_CELL, owner);
    GridCountAfterSet(lifted, a.toX, a.toY, unit, owner);
    SwapBack(Cells(s.grid), unit, EMPTY_CELL);
  }

  lemma SwapBack(a: multiset<Cell>, x: Cell, y: Cell)
    requires x in a
    ensures a - multiset{x} + multiset{y} - multiset{y} + multiset{x} == a
  {
  }

  datatype Step = Act(a: Action) | Consume | EndGame

  /** `EndGame` is the termination check once the turn limit is passed: it marks the state as over. */
  function Next(s: State, step: Step): State {
    match step
    case Act(a) => if Accepts(s, a) then Apply(s, a) else s
    case Consume => s.(turn := s.turn + 1)
    case EndGame => if s.turn > s.maxTurns then s.(gameOver := true) else s
  }

  function Run(start: State, steps: seq<Step>, n: nat): State
    requires n <= |steps|
  {
    if n == 0 then start else Next(Run(start, steps, n - 1), steps[n - 1])
  }

  /** Accepted placements of an agent among the first `n` steps. */
  function Placements(start: State, steps: seq<Step>, n: nat, owner: string): nat
    requires n <= |steps|
  {
    if n == 0 then 0 else
    var s := Run(start, steps, n - 1);
    Placements(start, steps, n - 1, owner)
    + if steps[n - 1].Act? && steps[n - 1].a.PlaceUnit? && Accepts(s, steps[n - 1].a)
        && CurrentPlayer(s) == owner then 1 else 0
  }

  lemma {:induction false} EmptyBoard(size: nat, rows: nat, owner: string)
    ensures GridCount(seq(rows, _ => seq(size, _ => EMPTY_CELL)), owner) == 0
  {
    var grid: Grid := seq(rows, _ => seq(size, _ => EMPTY_CELL));
    if rows > 0 {
      assert grid[..rows - 1] == seq(rows - 1, _ => seq(size, _ => EMPTY_CELL));
      EmptyBoard(size, rows - 1, owner);
      EmptyRow(size, owner);
    }
  }

  lemma {:induction false} EmptyRow(size: nat, owner: string)
    ensures RowCount(seq(size, _ => EMPTY_CELL), owner) == 0
  {
    var row: Row := seq(size, _ => EMPTY_CELL);
    if size > 0 {
      assert row[..size - 1] == seq(size - 1, _ => EMPTY_CELL);
      EmptyRow(size - 1, owner);
    }
  }

  lemma {:induction false} StepCounts(s: State, step: Step, owner: string)
    requires CleanCells(s.grid) && Square(s)
    ensures CleanCells(Next(s, step).grid) && Square(Next(s, step)) && Next(s, step).gridSize == s.gridSize
    ensures GridCount(Next(s, step).grid, owner) == GridCount(s.grid, owner)
      + if step.Act? && step.a.PlaceUnit? && Accepts(s, step.a) && CurrentPlayer(s) == owner then 1 else 0
  {
    hide GridCount, Trim, ApplyToGrid, Validate;
    if step.Act? && Accepts(s, step.a) {
      if step.a.PlaceUnit? {
        PlacementAddsOne(s, step.a, owner);
        PlacementKeepsShape(s, step.a);
      } else if step.a.MoveUnit? {
        MovePermutesCells(s, step.a, owner);
        MoveKeepsShape(s, step.a);
      } else {
        OnlyTools(s, step.a);
      }
    }
  }

  lemma OnlyTools(s: State, a: Action)
    requires Accepts(s, a) && !a.PlaceUnit? && !a.MoveUnit?
    ensures Apply(s, a) == s
  {
  }

  lemma PlacementKeepsShape(s: State, a: Action)
    requires a.PlaceUnit? && CleanCells(s.grid) && Square(s)
    ensures CleanCells(Apply(s, a).grid) && Square(Apply(s, a))
  {
    hide Trim, Validate;
  }

  lemma MoveKeepsShape(s: State, a: Action)
    requires a.MoveUnit? && Accepts(s, a) && CleanCells(s.grid) && Square(s)
    ensures CleanCells(Apply(s, a).grid) && Square(Apply(s, a))
  {
    MoveFacts(s, a);
    hide Validate, Apply;
  }

  /** Over any run each agent controls exactly as many cells as it has placed units. */
  lemma {:induction false} ControlledCellsArePlacements(
      size: nat, conceptMaxLength: int, maxTurns: int, steps: seq<Step>, n: nat, owner: string)
    requires n <= |steps|
    ensures var start := Initialize(size, conceptMaxLength, maxTurns);
      var s := Run(start, steps, n);
      && GridCount(s.grid, owner) == Placements(start, steps, n, owner)
      && CleanCells(s.grid) && Square(s) && s.gridSize == size
  {
    hide GridCount, Next, Accepts;
    var start := Initialize(size, conceptMaxLength, maxTurns);
    if n == 0 {
      EmptyBoard(size, size, owner);
    } else {
      ControlledCellsArePlacements(size, conceptMaxLength, maxTurns, steps, n - 1, owner);
      StepCounts(Run(start, steps, n - 1), steps[n - 1], owner);
    }
  }

  /** A consumed turn adds one to the turn, an accepted action adds one unless it only reads the board. */
  lemma TurnLaw(s: State, a: Action)
    requires Accepts(s, a)
    ensures Next(s, Consume).turn == s.turn + 1
    ensures Next(s, Act(a)).turn == s.turn + if a.GetBoard? then 0 else 1
  {
  }

  /** A match is over only after its last turn: marking it says nothing that the turn does not say. */
  lemma {:induction false} OverAfterLastTurn(size: nat, conceptMaxLength: int, maxTurns: int, steps: seq<Step>, n: nat)
    requires n <= |steps|
    ensures var s := Run(Initialize(size, conceptMaxLength, maxTurns), steps, n);
      && s.maxTurns == maxTurns && (s.gameOver ==> s.turn > maxTurns)
      && (Next(s, EndGame).gameOver <==> s.turn > maxTurns) && Next(s, EndGame).grid == s.grid
  {
    hide Validate, ApplyToGrid;
    if n > 0 {
      OverAfterLastTurn(size, conceptMaxLength, maxTurns, steps, n - 1);
    }
  }

  // ------------------------------------------------------- where the judge is right

  /** The judge names the agent who controls more cells, whatever was played on a board of this size. */
  ghost predicate JudgeIsRight(size: nat, conceptMaxLength: int, maxTurns: int) {
    forall steps: seq<Step> ::
      var grid := Run(Initialize(size, conceptMaxLength, maxTurns), steps, |steps|).grid;
      ControlLeader(Judged(grid)) == ControlLeader(grid)
  }

  lemma {:induction false} NothingPlaced(start: State, steps: seq<Step>, n: nat, owner: string)
    requires n <= |steps| && start.turn >= 1 && (start.maxTurns < 1 || start.conceptMaxLength < 1)
    ensures Placements(start, steps, n, owner) == 0
    ensures Run(start, steps, n).turn >= 1 && Run(start, steps, n).maxTurns == start.maxTurns
    ensures Run(start, steps, n).conceptMaxLength == start.conceptMaxLength
  {
    hide Trim, Apply, CellAt;
    if n > 0 {
      NothingPlaced(start, steps, n - 1, owner);
      StepFrame(Run(start, steps, n - 1), steps[n - 1]);
      PlacementNeedsRoom(Run(start, steps, n - 1), steps[n - 1]);
      hide Next, Validate;
    }
  }

  lemma StepFrame(s: State, step: Step)
    ensures Next(s, step).turn >= s.turn && Next(s, step).maxTurns == s.maxTurns
    ensures Next(s, step).conceptMaxLength == s.conceptMaxLength
  {
    hide Validate, ApplyToGrid;
  }

  lemma PlacementNeedsRoom(s: State, step: Step)
    requires s.turn >= 1
    ensures step.Act? && step.a.PlaceUnit? && Accepts(s, step.a) ==> s.maxTurns >= 1 && s.conceptMaxLength >= 1
  {
    assert Trim("") == "";
  }

  /** A placement on an empty cell, by whoever is to move; far out it does not change what the judge sees. */
  lemma PlacementCounts(s: State, x: nat, y: nat, owner: string)
    requires Square(s) && x < s.gridSize && y < s.gridSize && s.grid[y][x].owner.None?
    requires !s.gameOver && s.turn <= s.maxTurns && s.conceptMaxLength >= 1
    ensures var t := Next(s, Act(PlaceUnit(x, y, "a")));
      && t == s.(grid := SetCell(s.grid, x, y, Cell(Some(CurrentPlayer(s)), Some("a"))), turn := s.turn + 1)
      && Square(t)
      && GridCount(t.grid, owner) == GridCount(s.grid, owner) + (if owner == CurrentPlayer(s) then 1 else 0)
      && (x >= JUDGED_SIZE || y >= JUDGED_SIZE ==> Judged(t.grid) == Judged(s.grid))
  {
    assert Trim("a") == "a";
    hide GridCount, Trim;
    PlacementAddsOne(s, PlaceUnit(x, y, "a"), owner);
  }

  lemma RunStep(start: State, steps: seq<Step>, n: nat)
    requires n < |steps|
    ensures Run(start, steps, 0) == start && Run(start, steps, n + 1) == Next(Run(start, steps, n), steps[n])
  {
  }

  lemma FreshBoard(size: nat, conceptMaxLength: int, maxTurns: int, owner: string)
    ensures var s := Initialize(size, conceptMaxLength, maxTurns);
      && Square(s) && GridCount(s.grid, owner) == 0 && GridCount(Judged(s.grid), owner) == 0
      && s.gridSize == size && s.conceptMaxLength == conceptMaxLength && s.maxTurns == maxTurns
      && s.turn == 1 && !s.gameOver
      && forall x, y | 0 <= x < size && 0 <= y < size :: s.grid[y][x] == EMPTY_CELL
  {
    hide GridCount, Judged, FarUnit;
    EmptyBoard(size, size, owner);
    JudgedCount(Initialize(size, conceptMaxLength, maxTurns).grid, owner);
  }

  /** A single unit in the last corner is enough to mislead the judge of a larger board. */
  lemma FarPlacementMisleads(size: nat, conceptMaxLength: int, maxTurns: int)
    requires size > JUDGED_SIZE && conceptMaxLength >= 1 && maxTurns >= 1
    ensures !JudgeIsRight(size, conceptMaxLength, maxTurns)
  {
    hide GridCount, Judged, Next, SetCell;
    var start := Initialize(size, conceptMaxLength, maxTurns);
    var steps := [Act(PlaceUnit(size - 1, size - 1, "a"))];
    RunStep(start, steps, 0);
    forall owner: string ensures GridCount(start.grid, owner) == 0 && GridCount(Judged(start.grid), owner) == 0 {
      FreshBoard(size, conceptMaxLength, maxTurns, owner);
    }
    PlacementCounts(start, size - 1, size - 1, AGENT_1);
    PlacementCounts(start, size - 1, size - 1, AGENT_2);
  }

  /**
   * The mock judge agrees with the count of controlled cells on every board that can be played exactly when
   * boards are at most ten by ten, or no unit can ever be placed.
   */
  lemma {:induction false} JudgeIsRightIffSmall(size: nat, conceptMaxLength: int, maxTurns: int)
    ensures JudgeIsRight(size, conceptMaxLength, maxTurns)
       <==> size <= JUDGED_SIZE || conceptMaxLength < 1 || maxTurns < 1
  {
    hide GridCount, Judged, Run, FarUnit;
    if size > JUDGED_SIZE && conceptMaxLength >= 1 && maxTurns >= 1 {
      FarPlacementMisleads(size, conceptMaxLength, maxTurns);
    } else {
      var start := Initialize(size, conceptMaxLength, maxTurns);
      forall steps: seq<Step>
        ensures var grid := Run(start, steps, |steps|).grid; ControlLeader(Judged(grid)) == ControlLeader(grid)
      {
        SmallOrEmpty(size, conceptMaxLength, maxTurns, steps, AGENT_1);
        SmallOrEmpty(size, conceptMaxLength, maxTurns, steps, AGENT_2);
      }
    }
  }

  lemma SmallOrEmpty(size: nat, conceptMaxLength: int, maxTurns: int, steps: seq<Step>, owner: string)
    requires size <= JUDGED_SIZE || conceptMaxLength < 1 || maxTurns < 1
    ensures var grid := Run(Initialize(size, conceptMaxLength, maxTurns), steps, |steps|).grid;
      GridCount(Judged(grid), owner) == GridCount(grid, owner)
  {
    hide GridCount, Judged, Run, Placements;
    var start := Initialize(size, conceptMaxLength, maxTurns);
    var grid := Run(start, steps, |steps|).grid;
    ControlledCellsArePlacements(size, conceptMaxLength, maxTurns, steps, |steps|, owner);
    JudgedCount(grid, owner);
    if size > JUDGED_SIZE {
      NothingPlaced(start, steps, |steps|, owner);
    }
  }

  /** On every larger board the judge can name the agent who controls fewer cells. */
  lemma {:induction false} JudgeNamesTheWrongAgent(size: nat, conceptMaxLength: int, maxTurns: int)
    requires size > JUDGED_SIZE && conceptMaxLength >= 1 && maxTurns >= 4
    ensures var steps := [Act(PlaceUnit(0, 0, "a")), Act(PlaceUnit(size - 1, size - 1, "a")), Consume,
                          Act(PlaceUnit(size - 2, size - 1, "a"))];
      var grid := Run(Initialize(size, conceptMaxLength, maxTurns), steps, |steps|).grid;
      ControlLeader(Judged(grid)) == Some(AGENT_1) && ControlLeader(grid) == Some(AGENT_2)
  {
    hide GridCount, Judged, Run, Next;
    var steps := [Act(PlaceUnit(0, 0, "a")), Act(PlaceUnit(size - 1, size - 1, "a")), Consume,
                  Act(PlaceUnit(size - 2, size - 1, "a"))];
    var s0 := Initialize(size, conceptMaxLength, maxTurns);
    var s1, s2 := Run(s0, steps, 1), Run(s0, steps, 2);
    var s3 := s2.(turn := s2.turn + 1);
    RunStep(s0, steps, 0);
    RunStep(s0, steps, 1);
    RunStep(s0, steps, 2);
    RunStep(s0, steps, 3);
    ConsumeStep(s2);
    forall owner | owner in {AGENT_1, AGENT_2}
      ensures GridCount(Run(s0, steps, 4).grid, owner) == (if owner == AGENT_1 then 1 else 2)
      ensures GridCount(Judged(Run(s0, steps, 4).grid), owner) == (if owner == AGENT_1 then 1 else 0)
    {
      FreshBoard(size, conceptMaxLength, maxTurns, owner);
      PlacementCounts(s0, 0, 0, owner);
      NearUnitIsSeen(s0, s1, owner);
      PlacementCounts(s1, size - 1, size - 1, owner);
      PlacementCounts(s3, size - 2, size - 1, owner);
    }
  }

  lemma ConsumeStep(s: State)
    ensures Next(s, Consume) == s.(turn := s.turn + 1)
  {
  }

  lemma NearUnitIsSeen(s: State, t: State, owner: string)
    requires Square(s) && s.gridSize > 0
    requires forall x, y | 0 <= x < s.gridSize && 0 <= y < s.gridSize :: s.grid[y][x] == EMPTY_CELL
    requires t.grid == SetCell(s.grid, 0, 0, Cell(Some(AGENT_1), Some("a")))
    ensures GridCount(Judged(t.grid), owner) == GridCount(t.grid, owner)
  {
    hide GridCount, Judged;
    JudgedCount(t.grid, owner);
  }
}
