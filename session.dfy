/** The game loop and the module-level state of src/main.js: the board,
    the current piece, the scoring object and the playing/over state.
    Key polling is replaced by an explicit Input value and every random
    draw is a parameter. */
module Session {
  import opened Tetromino
  import opened Board
  import opened Logic

  const GRID_WIDTH: nat := 10
  const GRID_HEIGHT: nat := 20

  datatype GameState = Playing | GameOver

  /** The keys pressed this frame. */
  datatype Input = Input(left: bool, right: bool, down: bool, rotate: bool)

  /** The draws used when a piece locks: one infection draw per shape cell,
      and the shape and type draws of the next piece. */
  datatype LockDraws = LockDraws(infect: (int, int) -> real, shapeDraw: real, typeDraw: real)

  predicate WellDrawn(d: LockDraws) {
    0.0 <= d.shapeDraw < 1.0
  }

  /** The board rows after committing a piece and clearing the full rows. */
  function Committed(cells: Matrix, shape: Matrix, x: int, y: int, t: int, infect: (int, int) -> real): Matrix
    requires Dims(cells, GRID_WIDTH, GRID_HEIGHT)
  {
    var placed := PlaceCells(cells, GRID_WIDTH, GRID_HEIGHT, shape, x, y, t, infect);
    Repeat(FullCount(placed), EmptyRow(GRID_WIDTH)) + KeptRows(placed)
  }

  /** Every shape fits at the spawn point of an empty board. */
  lemma SpawnFitsEmptyBoard(k: int)
    requires 0 <= k < SHAPE_COUNT
    ensures Fits(Repeat(GRID_HEIGHT, EmptyRow(GRID_WIDTH)), GRID_WIDTH, GRID_HEIGHT, SHAPES[k], GRID_WIDTH / 2, 0)
  {
    var shape := SHAPES[k];
    assert |shape| <= 2 && forall py :: 0 <= py < |shape| ==> |shape[py]| <= 4;
  }

  class Game {
    const grid: Grid
    const logic: GameLogic
    var current: Piece?
    var state: GameState

    ghost predicate Valid()
      reads this, grid, logic, current
    {
      grid.Valid() && grid.Consistent() && grid.width == GRID_WIDTH && grid.height == GRID_HEIGHT
      && logic.Valid() && CorruptionInRange(logic.Model())
      && (current != null ==> current.Valid())
    }

    /** gameInit: an empty 10 x 20 board, a fresh scoring object and the first piece. */
    constructor (firstShapeDraw: real, firstTypeDraw: real)
      requires 0.0 <= firstShapeDraw < 1.0
      ensures Valid() && fresh(grid) && fresh(logic) && fresh(current)
      ensures grid.cells == Repeat(GRID_HEIGHT, EmptyRow(GRID_WIDTH)) && logic.Model() == Initial()
      ensures current != null && current.x == GRID_WIDTH / 2 && current.y == 0 && current.rotation == 0
      ensures current.shapeIndex == ShapeIndexFor(firstShapeDraw) && current.blockType == TypeForRoll(firstTypeDraw * 100.0)
      ensures grid.virusCells == Repeat(GRID_HEIGHT, CleanRow(GRID_WIDTH)) && grid.virusSpreadTimer == 0
      ensures state == Playing
    {
      grid := new Grid(GRID_WIDTH, GRID_HEIGHT);
      logic := new GameLogic();
      state := Playing;
      new;
      SpawnNewPiece(firstShapeDraw, firstTypeDraw);
      SpawnFitsEmptyBoard(current.shapeIndex);
    }

    /** Moves the current piece by (dx, dy) exactly when it fits there. */
    method MovePiece(dx: int, dy: int) returns (moved: bool)
      requires Valid()
      modifies current
      ensures Valid()
      ensures current == null ==> !moved
      ensures current != null ==>
        moved == Fits(grid.cells, grid.width, grid.height, current.shape, old(current.x) + dx, old(current.y) + dy)
        && current.x == (if moved then old(current.x) + dx else old(current.x))
        && current.y == (if moved then old(current.y) + dy else old(current.y))
        && current.shape == old(current.shape) && current.rotation == old(current.rotation)
        && current.shapeIndex == old(current.shapeIndex) && current.blockType == old(current.blockType)
      ensures current != null && Fits(grid.cells, grid.width, grid.height, current.shape, old(current.x), old(current.y)) ==>
        Fits(grid.cells, grid.width, grid.height, current.shape, current.x, current.y)
    {
      if current == null {
        return false;
      }
      var newX, newY := current.x + dx, current.y + dy;
      var ok := grid.CanPlacePiece(current, newX, newY);
      if ok {
        current.x := newX;
        current.y := newY;
        return true;
      }
      return false;
    }

    /** Rotates the current piece exactly when the rotated shape fits at its origin. */
    method RotatePiece()
      requires Valid()
      modifies current
      ensures Valid()
      ensures current != null ==>
        var turned := Fits(grid.cells, grid.width, grid.height, Rotated(old(current.shape)), current.x, current.y);
        current.shape == (if turned then Rotated(old(current.shape)) else old(current.shape))
        && current.rotation == (if turned then (old(current.rotation) + 1) % 4 else old(current.rotation))
        && current.x == old(current.x) && current.y == old(current.y)
        && current.shapeIndex == old(current.shapeIndex) && current.blockType == old(current.blockType)
      ensures current != null && Fits(grid.cells, grid.width, grid.height, old(current.shape), current.x, current.y) ==>
        Fits(grid.cells, grid.width, grid.height, current.shape, current.x, current.y)
    {
      if current == null {
        return;
      }
      var rotated := current.GetRotated();
      var ok := grid.CanPlacePiece(rotated, current.x, current.y);
      if ok {
        current.Rotate();
      }
    }

    /** Commits the current piece, clears full rows, scores them, and ends
        the game if the top row is occupied afterwards. */
    method PlacePiece(infect: (int, int) -> real)
      requires Valid()
      modifies this, grid, logic
      ensures Valid() && current == old(current) && grid.virusSpreadTimer == old(grid.virusSpreadTimer)
      ensures current == null ==> unchanged(grid) && unchanged(logic) && state == old(state)
      ensures current != null ==>
        var placed := PlaceCells(old(grid.cells), GRID_WIDTH, GRID_HEIGHT, current.shape, current.x, current.y, current.blockType, infect);
        var cleared := FullCount(placed);
        grid.cells == Committed(old(grid.cells), current.shape, current.x, current.y, current.blockType, infect)
        && grid.virusCells == Repeat(cleared, CleanRow(GRID_WIDTH))
             + KeptFlags(placed, PlaceFlags(old(grid.virusCells), GRID_WIDTH, GRID_HEIGHT, current.shape, current.x, current.y, infect))
        && logic.Model() == ScoreAdded(old(logic.Model()), cleared)
        && state == (if exists x :: 0 <= x < GRID_WIDTH && grid.cells[0][x] != EMPTY then GameOver else old(state))
    {
      if current == null {
        return;
      }
      PlaceKeepsVirusOnBlocks(grid.cells, grid.virusCells, grid.width, grid.height, current.shape, current.x, current.y,
                              current.blockType, infect);
      grid.PlacePiece(current, infect);
      ClearKeepsVirusOnBlocks(grid.cells, grid.virusCells, grid.width);
      var linesCleared := grid.ClearFullLines();
      if linesCleared > 0 {
        StepConsistent(logic.Model(), Score(linesCleared));
        logic.AddScore(linesCleared);
      }
      var over := grid.IsGameOver();
      if over {
        state := GameOver;
      }
    }

    /** A new random piece at (5, 0); the game ends if it does not fit there. */
    method SpawnNewPiece(shapeDraw: real, typeDraw: real)
      requires grid.Valid() && 0.0 <= shapeDraw < 1.0
      modifies this
      ensures fresh(current) && current.Valid()
      ensures current.x == GRID_WIDTH / 2 && current.y == 0 && current.rotation == 0
      ensures current.shapeIndex == ShapeIndexFor(shapeDraw) && current.blockType == TypeForRoll(typeDraw * 100.0)
      ensures state == (if Fits(grid.cells, grid.width, grid.height, current.shape, current.x, current.y)
                        then old(state) else GameOver)
    {
      current := new Piece(GRID_WIDTH / 2, 0, None, shapeDraw, typeDraw);
      var ok := grid.CanPlacePiece(current, current.x, current.y);
      if !ok {
        state := GameOver;
      }
    }

    /** One step down, or, when the piece cannot move down, lock it and
        spawn the next one. */
    method DropOrLock(lock: LockDraws) returns (moved: bool)
      requires Valid() && WellDrawn(lock)
      modifies this, grid, logic, current
      ensures Valid()
      ensures moved ==> old(current) != null && current == old(current)
      ensures moved ==> current.y == old(current.y) + 1 && unchanged(grid) && unchanged(logic) && state == old(state)
      ensures moved ==>
        current.x == old(current.x) && current.shape == old(current.shape) && current.rotation == old(current.rotation)
        && current.shapeIndex == old(current.shapeIndex) && current.blockType == old(current.blockType)
      ensures grid.virusSpreadTimer == old(grid.virusSpreadTimer)
      ensures !moved ==>
        fresh(current) && current.x == GRID_WIDTH / 2 && current.y == 0 && current.rotation == 0
        && current.shapeIndex == ShapeIndexFor(lock.shapeDraw) && current.blockType == TypeForRoll(lock.typeDraw * 100.0)
      ensures !moved && old(current) == null ==>
        unchanged(grid) && unchanged(logic)
        && state == (if Fits(grid.cells, GRID_WIDTH, GRID_HEIGHT, current.shape, current.x, current.y) then old(state) else GameOver)
      ensures !moved && old(current) != null ==>
        var placed := PlaceCells(old(grid.cells), GRID_WIDTH, GRID_HEIGHT, old(current.shape), old(current.x), old(current.y),
                                 old(current.blockType), lock.infect);
        var cleared := FullCount(placed);
        grid.cells == Committed(old(grid.cells), old(current.shape), old(current.x), old(current.y), old(current.blockType), lock.infect)
        && grid.virusCells == Repeat(cleared, CleanRow(GRID_WIDTH))
             + KeptFlags(placed, PlaceFlags(old(grid.virusCells), GRID_WIDTH, GRID_HEIGHT, old(current.shape), old(current.x), old(current.y), lock.infect))
        && logic.Model() == ScoreAdded(old(logic.Model()), cleared)
        && state == (if (exists x :: 0 <= x < GRID_WIDTH && grid.cells[0][x] != EMPTY)
                        || !Fits(grid.cells, GRID_WIDTH, GRID_HEIGHT, current.shape, current.x, current.y)
                     then GameOver else old(state))
    {
      moved := MovePiece(0, 1);
      if !moved {
        PlacePiece(lock.infect);
        ghost var placedState := state;
        SpawnNewPiece(lock.shapeDraw, lock.typeDraw);
        assert state == (if Fits(grid.cells, GRID_WIDTH, GRID_HEIGHT, current.shape, current.x, current.y)
                         then placedState else GameOver);
      }
    }

    /** The input part of the frame: left, right, down (locking when
        blocked), then rotate, each when requested. */
    method HandleInput(input: Input, lock: LockDraws)
      requires Valid() && WellDrawn(lock)
      modifies this, grid, logic, current
      ensures Valid() && (current == old(current) || fresh(current))
      ensures input == Input(false, false, false, false) ==>
        current == old(current) && unchanged(grid) && unchanged(logic) && state == old(state)
        && (current != null ==> unchanged(current))
    {
      if input.left {
        var _ := MovePiece(-1, 0);
      }
      if input.right {
        var _ := MovePiece(1, 0);
      }
      if input.down {
        var _ := DropOrLock(lock);
      }
      if input.rotate {
        RotatePiece();
      }
    }

    /** One frame: nothing unless playing; otherwise input, the scoring
        tick, a due drop (locking when blocked), then the board's tick. */
    method GameUpdate(input: Input, inputLock: LockDraws, dropLock: LockDraws, spread: (int, int, int) -> real)
      requires Valid() && WellDrawn(inputLock) && WellDrawn(dropLock)
      modifies this, grid, logic, current
      ensures Valid()
      ensures old(state) != Playing ==>
        current == old(current) && unchanged(grid) && unchanged(logic) && state == old(state)
        && (current != null ==> unchanged(current))
    {
      if state != Playing {
        return;
      }
      HandleInput(input, inputLock);
      logic.Update();
      var due := logic.ShouldDropPiece();
      if due {
        var _ := DropOrLock(dropLock);
      }
      grid.Update(spread);
    }
  }
}
