/** The board (src/game/Grid.js): a height x width matrix of block kinds
    (0 empty, 1..5 block kinds) and a parallel matrix of infection flags,
    with placement, line clearing, virus spread and the game-over test. */
module Board {
  import opened Tetromino

  const EMPTY := 0
  const VIRUS := 4
  /** Calls of UpdateVirusSpread between two spreads (3 seconds at 60 ticks per second). */
  const SPREAD_DELAY := 180
  /** Chance that one infected cell infects one occupied neighbour. */
  const SPREAD_CHANCE: real := 0.3
  /** Chance that one placed cell arrives infected. */
  const INFECT_CHANCE: real := 0.1

  type Flags = seq<seq<bool>>

  /** h rows of w entries each. */
  predicate Dims<T>(m: seq<seq<T>>, w: nat, h: nat) {
    |m| == h && forall r :: 0 <= r < h ==> |m[r]| == w
  }

  /** Infected entries of one row are never empty. */
  predicate RowConsistent(row: seq<int>, flags: seq<bool>) {
    |row| == |flags| && forall x :: 0 <= x < |row| && flags[x] ==> row[x] != EMPTY
  }

  /** Infected cells are never empty. */
  predicate VirusOnBlocks(cells: Matrix, flags: Flags) {
    |cells| == |flags| && forall y :: 0 <= y < |cells| ==> RowConsistent(cells[y], flags[y])
  }

  // ---------------------------------------------------------------------
  // Placement

  /** Shape cell (py, px) exists and is occupied. */
  predicate Occupied(shape: Matrix, py: int, px: int) {
    0 <= py < |shape| && 0 <= px < |shape[py]| && shape[py][px] != EMPTY
  }

  /** Board cell (gx, gy) exists and is empty. */
  predicate FreeAt(cells: Matrix, w: nat, h: nat, gx: int, gy: int)
    requires Dims(cells, w, h)
  {
    0 <= gx < w && 0 <= gy < h && cells[gy][gx] == EMPTY
  }

  /** The shape with its top-left corner at (x, y) lies on empty board cells only. */
  ghost predicate Fits(cells: Matrix, w: nat, h: nat, shape: Matrix, x: int, y: int)
    requires Dims(cells, w, h)
  {
    forall py, px :: Occupied(shape, py, px) ==> FreeAt(cells, w, h, x + px, y + py)
  }

  /** The value a placed cell receives: the piece's type, or a virus block
      when its infection draw is below the infection chance. */
  function Stamp(t: int, draw: real): int {
    if draw < INFECT_CHANCE then VIRUS else t
  }

  /** Board cell (gx, gy) after committing the shape at (x, y) with type t;
      infect(py, px) is the draw made for shape cell (py, px). */
  function PlaceAt(cells: Matrix, w: nat, h: nat, shape: Matrix, x: int, y: int, t: int, infect: (int, int) -> real,
                   gy: int, gx: int): int
    requires Dims(cells, w, h) && 0 <= gy < h && 0 <= gx < w
  {
    if Occupied(shape, gy - y, gx - x) then Stamp(t, infect(gy - y, gx - x)) else cells[gy][gx]
  }

  /** Infection flag of board cell (gx, gy) after the same commit. */
  function PlaceFlagAt(flags: Flags, w: nat, h: nat, shape: Matrix, x: int, y: int, infect: (int, int) -> real,
                       gy: int, gx: int): bool
    requires Dims(flags, w, h) && 0 <= gy < h && 0 <= gx < w
  {
    flags[gy][gx] || (Occupied(shape, gy - y, gx - x) && infect(gy - y, gx - x) < INFECT_CHANCE)
  }

  function PlaceCells(cells: Matrix, w: nat, h: nat, shape: Matrix, x: int, y: int, t: int, infect: (int, int) -> real): (r: Matrix)
    requires Dims(cells, w, h)
    ensures Dims(r, w, h)
  {
    seq(h, gy requires 0 <= gy < h => seq(w, gx requires 0 <= gx < w => PlaceAt(cells, w, h, shape, x, y, t, infect, gy, gx)))
  }

  function PlaceFlags(flags: Flags, w: nat, h: nat, shape: Matrix, x: int, y: int, infect: (int, int) -> real): (r: Flags)
    requires Dims(flags, w, h)
    ensures Dims(r, w, h)
  {
    seq(h, gy requires 0 <= gy < h => seq(w, gx requires 0 <= gx < w => PlaceFlagAt(flags, w, h, shape, x, y, infect, gy, gx)))
  }

  /** Committing writes a block into every in-bounds occupied cell, infected
      exactly when its draw is below 0.1 or it already was, and touches
      nothing else; out-of-bounds shape cells are skipped. */
  lemma PlaceEffect(cells: Matrix, flags: Flags, w: nat, h: nat, shape: Matrix, x: int, y: int, t: int, infect: (int, int) -> real)
    requires Dims(cells, w, h) && Dims(flags, w, h) && t != EMPTY
    ensures forall py, px :: Occupied(shape, py, px) && 0 <= x + px < w && 0 <= y + py < h ==>
      PlaceCells(cells, w, h, shape, x, y, t, infect)[y + py][x + px] != EMPTY
      && (PlaceFlags(flags, w, h, shape, x, y, infect)[y + py][x + px] <==> flags[y + py][x + px] || infect(py, px) < INFECT_CHANCE)
    ensures forall gy, gx :: 0 <= gy < h && 0 <= gx < w && !Occupied(shape, gy - y, gx - x) ==>
      PlaceCells(cells, w, h, shape, x, y, t, infect)[gy][gx] == cells[gy][gx]
      && PlaceFlags(flags, w, h, shape, x, y, infect)[gy][gx] == flags[gy][gx]
  {
    forall py, px | Occupied(shape, py, px) && 0 <= x + px < w && 0 <= y + py < h
      ensures PlaceCells(cells, w, h, shape, x, y, t, infect)[y + py][x + px] != EMPTY
      ensures PlaceFlags(flags, w, h, shape, x, y, infect)[y + py][x + px] <==> flags[y + py][x + px] || infect(py, px) < INFECT_CHANCE
    {
      assert (y + py) - y == py && (x + px) - x == px;
      assert PlaceCells(cells, w, h, shape, x, y, t, infect)[y + py][x + px] == Stamp(t, infect(py, px));
    }
  }

  /** Committed cells block the same placement, provided one of them is on the board. */
  lemma PlacedPieceBlocksItself(cells: Matrix, w: nat, h: nat, shape: Matrix, x: int, y: int, t: int, infect: (int, int) -> real,
                                py: int, px: int)
    requires Dims(cells, w, h) && t != EMPTY
    requires Occupied(shape, py, px) && 0 <= x + px < w && 0 <= y + py < h
    ensures !Fits(PlaceCells(cells, w, h, shape, x, y, t, infect), w, h, shape, x, y)
  {
    var placed := PlaceCells(cells, w, h, shape, x, y, t, infect);
    assert (y + py) - y == py && (x + px) - x == px;
    assert placed[y + py][x + px] == Stamp(t, infect(py, px));
    assert !FreeAt(placed, w, h, x + px, y + py);
  }

  /** Committing a non-empty type keeps infected cells non-empty. */
  lemma PlaceKeepsVirusOnBlocks(cells: Matrix, flags: Flags, w: nat, h: nat, shape: Matrix, x: int, y: int, t: int, infect: (int, int) -> real)
    requires Dims(cells, w, h) && Dims(flags, w, h) && t != EMPTY
    requires VirusOnBlocks(cells, flags)
    ensures VirusOnBlocks(PlaceCells(cells, w, h, shape, x, y, t, infect), PlaceFlags(flags, w, h, shape, x, y, infect))
  {
    var c, f := PlaceCells(cells, w, h, shape, x, y, t, infect), PlaceFlags(flags, w, h, shape, x, y, infect);
    forall gy | 0 <= gy < h
      ensures RowConsistent(c[gy], f[gy])
    {
      assert RowConsistent(cells[gy], flags[gy]);
    }
  }

  /** (py, px) comes before (i, j) in row-major order. */
  predicate Before2(py: int, px: int, i: int, j: int) {
    py < i || (py == i && px < j)
  }

  /** One board cell while PlacePiece scans the shape: committed if its shape
      cell was visited before (i, j), as it was otherwise. */
  ghost predicate PlacedCell(c0: Matrix, f0: Flags, c: Matrix, f: Flags, w: nat, h: nat, shape: Matrix, x: int, y: int,
                             t: int, infect: (int, int) -> real, i: int, j: int, gy: int, gx: int)
    requires Dims(c0, w, h) && Dims(f0, w, h) && Dims(c, w, h) && Dims(f, w, h) && 0 <= gy < h && 0 <= gx < w
  {
    if Before2(gy - y, gx - x, i, j) then
      c[gy][gx] == PlaceAt(c0, w, h, shape, x, y, t, infect, gy, gx)
      && f[gy][gx] == PlaceFlagAt(f0, w, h, shape, x, y, infect, gy, gx)
    else
      c[gy][gx] == c0[gy][gx] && f[gy][gx] == f0[gy][gx]
  }

  ghost predicate PlacedSoFar(c0: Matrix, f0: Flags, c: Matrix, f: Flags, w: nat, h: nat, shape: Matrix, x: int, y: int,
                              t: int, infect: (int, int) -> real, i: int, j: int)
  {
    Dims(c0, w, h) && Dims(f0, w, h) && Dims(c, w, h) && Dims(f, w, h)
    && forall gy, gx :: 0 <= gy < h && 0 <= gx < w ==> PlacedCell(c0, f0, c, f, w, h, shape, x, y, t, infect, i, j, gy, gx)
  }

  /** Visiting shape cell (i, j) commits the board cell under it, if any. */
  lemma PlaceStep(c0: Matrix, f0: Flags, c: Matrix, f: Flags, c': Matrix, f': Flags, w: nat, h: nat, shape: Matrix,
                  x: int, y: int, t: int, infect: (int, int) -> real, i: int, j: int)
    requires PlacedSoFar(c0, f0, c, f, w, h, shape, x, y, t, infect, i, j)
    requires 0 <= i < |shape| && 0 <= j < |shape[i]|
    requires if Occupied(shape, i, j) && 0 <= x + j < w && 0 <= y + i < h then
               c' == c[y + i := c[y + i][x + j := Stamp(t, infect(i, j))]]
               && f' == (if infect(i, j) < INFECT_CHANCE then f[y + i := f[y + i][x + j := true]] else f)
             else c' == c && f' == f
    ensures PlacedSoFar(c0, f0, c', f', w, h, shape, x, y, t, infect, i, j + 1)
  {
    var j1 := j + 1;
    forall gy, gx | 0 <= gy < h && 0 <= gx < w
      ensures PlacedCell(c0, f0, c', f', w, h, shape, x, y, t, infect, i, j1, gy, gx)
    {
      assert PlacedCell(c0, f0, c, f, w, h, shape, x, y, t, infect, i, j, gy, gx);
    }
  }

  lemma PlaceNextRow(c0: Matrix, f0: Flags, c: Matrix, f: Flags, w: nat, h: nat, shape: Matrix,
                     x: int, y: int, t: int, infect: (int, int) -> real, i: int)
    requires PlacedSoFar(c0, f0, c, f, w, h, shape, x, y, t, infect, i, if 0 <= i < |shape| then |shape[i]| else 0)
    requires 0 <= i < |shape|
    ensures PlacedSoFar(c0, f0, c, f, w, h, shape, x, y, t, infect, i + 1, 0)
  {
    var i1 := i + 1;
    forall gy, gx | 0 <= gy < h && 0 <= gx < w
      ensures PlacedCell(c0, f0, c, f, w, h, shape, x, y, t, infect, i1, 0, gy, gx)
    {
      assert PlacedCell(c0, f0, c, f, w, h, shape, x, y, t, infect, i, |shape[i]|, gy, gx);
    }
  }

  lemma PlaceDone(c0: Matrix, f0: Flags, c: Matrix, f: Flags, w: nat, h: nat, shape: Matrix,
                  x: int, y: int, t: int, infect: (int, int) -> real)
    requires PlacedSoFar(c0, f0, c, f, w, h, shape, x, y, t, infect, |shape|, 0)
    ensures c == PlaceCells(c0, w, h, shape, x, y, t, infect)
    ensures f == PlaceFlags(f0, w, h, shape, x, y, infect)
  {
    forall gy, gx | 0 <= gy < h && 0 <= gx < w
      ensures c[gy][gx] == PlaceAt(c0, w, h, shape, x, y, t, infect, gy, gx)
      ensures f[gy][gx] == PlaceFlagAt(f0, w, h, shape, x, y, infect, gy, gx)
    {
      assert PlacedCell(c0, f0, c, f, w, h, shape, x, y, t, infect, |shape|, 0, gy, gx);
    }
    assert forall gy :: 0 <= gy < h ==> c[gy] == PlaceCells(c0, w, h, shape, x, y, t, infect)[gy];
    assert forall gy :: 0 <= gy < h ==> f[gy] == PlaceFlags(f0, w, h, shape, x, y, infect)[gy];
  }

  // ---------------------------------------------------------------------
  // Line clearing

  /** Every cell of the row is occupied. */
  predicate FullRow(row: seq<int>) {
    forall x :: 0 <= x < |row| ==> row[x] != EMPTY
  }

  /** The number of full rows. */
  function FullCount(rows: Matrix): nat {
    if rows == [] then 0 else (if FullRow(rows[0]) then 1 else 0) + FullCount(rows[1..])
  }

  /** The rows that are not full, in their original order. */
  function KeptRows(rows: Matrix): Matrix {
    if rows == [] then [] else (if FullRow(rows[0]) then [] else [rows[0]]) + KeptRows(rows[1..])
  }

  /** The flag rows that travel with the kept rows. */
  function KeptFlags(rows: Matrix, flags: Flags): Flags
    requires |flags| == |rows|
  {
    if rows == [] then [] else (if FullRow(rows[0]) then [] else [flags[0]]) + KeptFlags(rows[1..], flags[1..])
  }

  function EmptyRow(w: nat): seq<int> {
    seq(w, _ => EMPTY)
  }

  function CleanRow(w: nat): seq<bool> {
    seq(w, _ => false)
  }

  function Repeat<T>(n: nat, row: T): (r: seq<T>)
    ensures |r| == n && forall i :: 0 <= i < n ==> r[i] == row
  {
    seq(n, _ => row)
  }

  /** Clearing keeps the height: full rows plus kept rows are all the rows,
      and the kept rows keep their width and are not full. */
  lemma {:induction false} KeptRowsShape(rows: Matrix, flags: Flags, w: nat)
    requires |flags| == |rows|
    requires forall i :: 0 <= i < |rows| ==> |rows[i]| == w && |flags[i]| == w
    ensures |KeptRows(rows)| + FullCount(rows) == |rows|
    ensures |KeptFlags(rows, flags)| == |KeptRows(rows)|
    ensures forall i :: 0 <= i < |KeptRows(rows)| ==> |KeptRows(rows)[i]| == w && !FullRow(KeptRows(rows)[i])
    ensures forall i :: 0 <= i < |KeptFlags(rows, flags)| ==> |KeptFlags(rows, flags)[i]| == w
  {
    if rows != [] {
      KeptRowsShape(rows[1..], flags[1..], w);
    }
  }

  lemma ConsistentTail(rows: Matrix, flags: Flags)
    requires rows != [] && VirusOnBlocks(rows, flags)
    ensures RowConsistent(rows[0], flags[0]) && VirusOnBlocks(rows[1..], flags[1..])
  {
    forall y | 0 <= y < |rows| - 1
      ensures RowConsistent(rows[1..][y], flags[1..][y])
    {
      assert rows[1..][y] == rows[y + 1] && flags[1..][y] == flags[y + 1];
    }
  }

  lemma ConsistentCons(row: seq<int>, f: seq<bool>, rows: Matrix, flags: Flags)
    requires RowConsistent(row, f) && VirusOnBlocks(rows, flags)
    ensures VirusOnBlocks([row] + rows, [f] + flags)
  {
    forall y | 0 <= y < |rows| + 1
      ensures RowConsistent(([row] + rows)[y], ([f] + flags)[y])
    {
      if y > 0 {
        assert ([row] + rows)[y] == rows[y - 1] && ([f] + flags)[y] == flags[y - 1];
      }
    }
  }

  /** Each kept flag row is the flag row of the kept cell row it travels with. */
  lemma {:induction false} KeptRowsPaired(rows: Matrix, flags: Flags)
    requires VirusOnBlocks(rows, flags)
    ensures VirusOnBlocks(KeptRows(rows), KeptFlags(rows, flags))
  {
    if rows != [] {
      ConsistentTail(rows, flags);
      KeptRowsPaired(rows[1..], flags[1..]);
      if !FullRow(rows[0]) {
        ConsistentCons(rows[0], flags[0], KeptRows(rows[1..]), KeptFlags(rows[1..], flags[1..]));
      }
    }
  }

  /** Clearing full rows keeps infected cells non-empty. */
  lemma ClearKeepsVirusOnBlocks(rows: Matrix, flags: Flags, w: nat)
    requires VirusOnBlocks(rows, flags)
    ensures VirusOnBlocks(Repeat(FullCount(rows), EmptyRow(w)) + KeptRows(rows),
                          Repeat(FullCount(rows), CleanRow(w)) + KeptFlags(rows, flags))
  {
    KeptRowsPaired(rows, flags);
    var k, c, f := FullCount(rows), KeptRows(rows), KeptFlags(rows, flags);
    forall y | 0 <= y < k + |c|
      ensures RowConsistent((Repeat(k, EmptyRow(w)) + c)[y], (Repeat(k, CleanRow(w)) + f)[y])
    {
      if y >= k {
        assert RowConsistent(c[y - k], f[y - k]);
      }
    }
  }

  /** With a positive width, clearing keeps the height and leaves no full row. */
  lemma ClearLeavesNoFullRow(rows: Matrix, w: nat)
    requires w > 0 && forall i :: 0 <= i < |rows| ==> |rows[i]| == w
    ensures var r := Repeat(FullCount(rows), EmptyRow(w)) + KeptRows(rows);
      |r| == |rows| && forall i :: 0 <= i < |r| ==> |r[i]| == w && !FullRow(r[i])
  {
    KeptRowsShape(rows, Repeat(|rows|, CleanRow(w)), w);
    var k := FullCount(rows);
    var r := Repeat(k, EmptyRow(w)) + KeptRows(rows);
    forall i | 0 <= i < |r|
      ensures |r[i]| == w && !FullRow(r[i])
    {
      if i < k {
        assert r[i][0] == EMPTY;
      } else {
        assert r[i] == KeptRows(rows)[i - k];
      }
    }
  }

  lemma {:induction false} KeptRowsStep(rows: Matrix, flags: Flags, p: nat)
    requires |flags| == |rows| && 0 < p <= |rows|
    ensures FullCount(rows[p - 1..]) == (if FullRow(rows[p - 1]) then 1 else 0) + FullCount(rows[p..])
    ensures KeptRows(rows[p - 1..]) == (if FullRow(rows[p - 1]) then [] else [rows[p - 1]]) + KeptRows(rows[p..])
    ensures KeptFlags(rows[p - 1..], flags[p - 1..]) ==
      (if FullRow(rows[p - 1]) then [] else [flags[p - 1]]) + KeptFlags(rows[p..], flags[p..])
  {
    assert rows[p - 1..][1..] == rows[p..];
    assert flags[p - 1..][1..] == flags[p..];
  }

  /** Removing the middle row of Repeat(k, e) + pre + [mid] + post and
      pushing e on top gives Repeat(k + 1, e) + pre + post. */
  lemma ShiftDown<T>(k: nat, e: T, pre: seq<T>, mid: T, post: seq<T>)
    ensures var s := Repeat(k, e) + pre + [mid] + post;
      [e] + s[..k + |pre|] + s[k + |pre| + 1..] == Repeat(k + 1, e) + pre + post
  {
    var s := Repeat(k, e) + pre + [mid] + post;
    assert s[..k + |pre|] == Repeat(k, e) + pre;
    assert s[k + |pre| + 1..] == post;
    assert [e] + Repeat(k, e) == Repeat(k + 1, e);
  }

  /** The rows ClearFullLines has scanned so far: k cleared rows on top,
      then the unscanned rows O[..p], then the kept scanned rows. */
  ghost predicate ClearScanned(O: Matrix, V: Flags, p: nat, k: nat, w: nat, c: Matrix, f: Flags) {
    |V| == |O| && p <= |O| && k == FullCount(O[p..])
    && c == Repeat(k, EmptyRow(w)) + O[..p] + KeptRows(O[p..])
    && f == Repeat(k, CleanRow(w)) + V[..p] + KeptFlags(O[p..], V[p..])
  }

  lemma ClearScanRow(O: Matrix, V: Flags, p: nat, k: nat, w: nat, c: Matrix)
    requires |V| == |O| && 0 < p <= |O| && c == Repeat(k, EmptyRow(w)) + O[..p] + KeptRows(O[p..])
    ensures c[k + p - 1] == O[p - 1]
  {
  }

  /** Before the scan nothing is cleared and every row is unscanned. */
  lemma ClearScanStart(O: Matrix, V: Flags, w: nat)
    requires |V| == |O|
    ensures ClearScanned(O, V, |O|, 0, w, O, V)
  {
    assert O[|O|..] == [] && V[|O|..] == [];
    assert O[..|O|] == O && V[..|O|] == V;
  }

  /** Where the scan point y stands: on the next unscanned row, or, once
      every row is scanned, among the cleared rows or past the top. */
  predicate ScanPoint(p: nat, k: nat, y: int) {
    if p > 0 then y == k + p - 1 else -1 <= y < k
  }

  /** One step of the scan at row y: the row under the scan point is the
      next unscanned row, or, once every row is scanned, a cleared row, which
      is never full; removing a full row moves it into the cleared rows, and
      passing over any other row moves it into the kept rows. */
  lemma ClearScanAt(O: Matrix, V: Flags, p: nat, k: nat, w: nat, c: Matrix, f: Flags, y: int)
    requires ClearScanned(O, V, p, k, w, c, f) && w > 0 && |c| == |f|
    requires ScanPoint(p, k, y) && y >= 0
    ensures 0 <= y < |c|
    ensures FullRow(c[y]) ==> p > 0 && ClearScanned(O, V, p - 1, k + 1, w,
      [EmptyRow(w)] + c[..y] + c[y + 1..], [CleanRow(w)] + f[..y] + f[y + 1..])
    ensures !FullRow(c[y]) ==> ClearScanned(O, V, if p > 0 then p - 1 else 0, k, w, c, f)
  {
    if p > 0 {
      ClearScanRow(O, V, p, k, w, c);
      if FullRow(O[p - 1]) {
        ClearScanFull(O, V, p, k, w, c, f, y);
      } else {
        ClearScanKeep(O, V, p, k, w, c, f);
      }
    } else {
      ClearScanTop(O, V, k, w, c, f, y);
    }
  }

  /** Once every row is scanned, the rows above the scan point are cleared rows. */
  lemma ClearScanTop(O: Matrix, V: Flags, k: nat, w: nat, c: Matrix, f: Flags, y: int)
    requires ClearScanned(O, V, 0, k, w, c, f) && 0 <= y < k && w > 0
    ensures y < |c| && c[y] == EmptyRow(w) && |c[y]| > 0 && c[y][0] == EMPTY
  {
    assert c[y] == Repeat(k, EmptyRow(w))[y];
  }

  /** Once every row is scanned, the scan has computed the cleared board. */
  lemma ClearScanDone(O: Matrix, V: Flags, k: nat, w: nat, c: Matrix, f: Flags)
    requires ClearScanned(O, V, 0, k, w, c, f)
    ensures k == FullCount(O)
    ensures c == Repeat(k, EmptyRow(w)) + KeptRows(O)
    ensures f == Repeat(k, CleanRow(w)) + KeptFlags(O, V)
  {
    assert O[0..] == O && V[0..] == V;
    assert O[..0] == [] && V[..0] == [];
  }

  /** Removing the full row O[p - 1] moves it into the cleared rows. */
  lemma ClearScanFull(O: Matrix, V: Flags, p: nat, k: nat, w: nat, c: Matrix, f: Flags, y: nat)
    requires ClearScanned(O, V, p, k, w, c, f) && 0 < p && y == k + p - 1 && FullRow(O[p - 1])
    ensures y < |c| && y < |f|
    ensures ClearScanned(O, V, p - 1, k + 1, w, [EmptyRow(w)] + c[..y] + c[y + 1..],
                         [CleanRow(w)] + f[..y] + f[y + 1..])
  {
    KeptRowsStep(O, V, p);
    ScanFullSeq(k, EmptyRow(w), O, p, KeptRows(O[p..]), c);
    ScanFullSeq(k, CleanRow(w), V, p, KeptFlags(O[p..], V[p..]), f);
  }

  lemma ScanFullSeq<T>(k: nat, e: T, U: seq<T>, p: nat, kept: seq<T>, c: seq<T>)
    requires 0 < p <= |U| && c == Repeat(k, e) + U[..p] + kept
    ensures [e] + c[..k + p - 1] + c[k + p..] == Repeat(k + 1, e) + U[..p - 1] + kept
  {
    assert U[..p] == U[..p - 1] + [U[p - 1]];
    ShiftDown(k, e, U[..p - 1], U[p - 1], kept);
  }

  /** Passing over the non-full row O[p - 1] moves it into the kept rows. */
  lemma ClearScanKeep(O: Matrix, V: Flags, p: nat, k: nat, w: nat, c: Matrix, f: Flags)
    requires ClearScanned(O, V, p, k, w, c, f) && 0 < p && !FullRow(O[p - 1])
    ensures ClearScanned(O, V, p - 1, k, w, c, f)
  {
    KeptRowsStep(O, V, p);
    assert O[..p] == O[..p - 1] + [O[p - 1]] && V[..p] == V[..p - 1] + [V[p - 1]];
  }

  // ---------------------------------------------------------------------
  // Virus spread

  /** Direction d of the four, as (dx, dy): down, up, right, left. */
  function DX(d: int): int { if d == 2 then 1 else if d == 3 then -1 else 0 }
  function DY(d: int): int { if d == 0 then 1 else if d == 1 then -1 else 0 }

  /** Attempt (sy, sx, d) comes before the cursor (y, x, e) in scan order. */
  predicate Before3(sy: int, sx: int, d: int, y: int, x: int, e: int) {
    sy < y || (sy == y && (sx < x || (sx == x && d < e)))
  }

  /** The snapshot-infected neighbour of (tx, ty) in direction d has tried
      to infect it before the cursor (y, x, e), and its draw succeeded. */
  predicate Attempt(flags: Flags, w: nat, h: nat, draw: (int, int, int) -> real,
                    ty: int, tx: int, d: int, y: int, x: int, e: int)
    requires Dims(flags, w, h)
  {
    var sy, sx := ty - DY(d), tx - DX(d);
    0 <= sy < h && 0 <= sx < w && flags[sy][sx] && Before3(sy, sx, d, y, x, e)
    && draw(sy, sx, d) < SPREAD_CHANCE
  }

  /** Some neighbour's attempt on (tx, ty) before the cursor succeeded. */
  predicate Caught(flags: Flags, w: nat, h: nat, draw: (int, int, int) -> real,
                   ty: int, tx: int, y: int, x: int, e: int)
    requires Dims(flags, w, h)
  {
    Attempt(flags, w, h, draw, ty, tx, 0, y, x, e) || Attempt(flags, w, h, draw, ty, tx, 1, y, x, e)
    || Attempt(flags, w, h, draw, ty, tx, 2, y, x, e) || Attempt(flags, w, h, draw, ty, tx, 3, y, x, e)
  }

  /** (tx, ty) is 4-adjacent to an infected cell. */
  ghost predicate NextToVirus(flags: Flags, w: nat, h: nat, ty: int, tx: int)
    requires Dims(flags, w, h)
  {
    exists d :: 0 <= d < 4 && 0 <= ty - DY(d) < h && 0 <= tx - DX(d) < w && flags[ty - DY(d)][tx - DX(d)]
  }

  /** Whether (tx, ty) is infected by this spread: occupied, not yet
      infected in the snapshot, and caught from some infected neighbour. */
  predicate NewlyInfected(cells: Matrix, flags: Flags, w: nat, h: nat, draw: (int, int, int) -> real, ty: int, tx: int,
                          y: int, x: int, e: int)
    requires Dims(cells, w, h) && Dims(flags, w, h) && 0 <= ty < h && 0 <= tx < w
  {
    !flags[ty][tx] && cells[ty][tx] > EMPTY && Caught(flags, w, h, draw, ty, tx, y, x, e)
  }

  /** Infection flags after one spread, every attempt judged on the snapshot. */
  function SpreadFlags(cells: Matrix, flags: Flags, w: nat, h: nat, draw: (int, int, int) -> real): (r: Flags)
    requires Dims(cells, w, h) && Dims(flags, w, h)
    ensures Dims(r, w, h)
  {
    seq(h, ty requires 0 <= ty < h => seq(w, tx requires 0 <= tx < w =>
      flags[ty][tx] || NewlyInfected(cells, flags, w, h, draw, ty, tx, h, 0, 0)))
  }

  /** Cells after one spread: newly infected cells become virus blocks. */
  function SpreadCells(cells: Matrix, flags: Flags, w: nat, h: nat, draw: (int, int, int) -> real): (r: Matrix)
    requires Dims(cells, w, h) && Dims(flags, w, h)
    ensures Dims(r, w, h)
  {
    seq(h, ty requires 0 <= ty < h => seq(w, tx requires 0 <= tx < w =>
      if NewlyInfected(cells, flags, w, h, draw, ty, tx, h, 0, 0) then VIRUS else cells[ty][tx]))
  }

  /** Spreading only grows the infected set; every newly infected cell was
      occupied, uninfected and next to an infected cell, and became a virus
      block; every other cell is unchanged. */
  lemma SpreadEffect(cells: Matrix, flags: Flags, w: nat, h: nat, draw: (int, int, int) -> real, ty: int, tx: int)
    requires Dims(cells, w, h) && Dims(flags, w, h) && 0 <= ty < h && 0 <= tx < w
    ensures var f, c := SpreadFlags(cells, flags, w, h, draw), SpreadCells(cells, flags, w, h, draw);
      (flags[ty][tx] ==> f[ty][tx] && c[ty][tx] == cells[ty][tx])
      && (f[ty][tx] && !flags[ty][tx] ==>
            cells[ty][tx] > EMPTY && NextToVirus(flags, w, h, ty, tx) && c[ty][tx] == VIRUS)
      && (!f[ty][tx] ==> c[ty][tx] == cells[ty][tx])
  {
    if NewlyInfected(cells, flags, w, h, draw, ty, tx, h, 0, 0) {
      var d :=
        if Attempt(flags, w, h, draw, ty, tx, 0, h, 0, 0) then 0
        else if Attempt(flags, w, h, draw, ty, tx, 1, h, 0, 0) then 1
        else if Attempt(flags, w, h, draw, ty, tx, 2, h, 0, 0) then 2 else 3;
      assert 0 <= ty - DY(d) < h && 0 <= tx - DX(d) < w && flags[ty - DY(d)][tx - DX(d)];
    }
  }

  /** Spreading keeps infected cells non-empty. */
  lemma SpreadKeepsVirusOnBlocks(cells: Matrix, flags: Flags, w: nat, h: nat, draw: (int, int, int) -> real)
    requires Dims(cells, w, h) && Dims(flags, w, h) && VirusOnBlocks(cells, flags)
    ensures VirusOnBlocks(SpreadCells(cells, flags, w, h, draw), SpreadFlags(cells, flags, w, h, draw))
  {
    var c, f := SpreadCells(cells, flags, w, h, draw), SpreadFlags(cells, flags, w, h, draw);
    forall ty | 0 <= ty < h
      ensures RowConsistent(c[ty], f[ty])
    {
      assert RowConsistent(cells[ty], flags[ty]);
    }
  }

  /** One board cell while SpreadVirus scans: it holds the effect of every
      attempt before the cursor (y, x, e). */
  ghost predicate SpreadCell(c0: Matrix, flags: Flags, c: Matrix, nf: Flags, w: nat, h: nat, draw: (int, int, int) -> real,
                             y: int, x: int, e: int, ty: int, tx: int)
    requires Dims(c0, w, h) && Dims(flags, w, h) && Dims(c, w, h) && Dims(nf, w, h) && 0 <= ty < h && 0 <= tx < w
  {
    nf[ty][tx] == (flags[ty][tx] || NewlyInfected(c0, flags, w, h, draw, ty, tx, y, x, e))
    && c[ty][tx] == (if NewlyInfected(c0, flags, w, h, draw, ty, tx, y, x, e) then VIRUS else c0[ty][tx])
  }

  ghost predicate SpreadSoFar(c0: Matrix, flags: Flags, c: Matrix, nf: Flags, w: nat, h: nat, draw: (int, int, int) -> real,
                              y: int, x: int, e: int)
  {
    Dims(c0, w, h) && Dims(flags, w, h) && Dims(c, w, h) && Dims(nf, w, h)
    && forall ty, tx :: 0 <= ty < h && 0 <= tx < w ==> SpreadCell(c0, flags, c, nf, w, h, draw, y, x, e, ty, tx)
  }

  /** Passing attempt (y, x, e) adds at most its own target to the caught cells. */
  lemma CaughtAdvance(flags: Flags, w: nat, h: nat, draw: (int, int, int) -> real, ty: int, tx: int, y: int, x: int, e: int)
    requires Dims(flags, w, h) && 0 <= y < h && 0 <= x < w && 0 <= e < 4
    ensures Caught(flags, w, h, draw, ty, tx, y, x, e + 1) ==
      (Caught(flags, w, h, draw, ty, tx, y, x, e)
       || (flags[y][x] && ty == y + DY(e) && tx == x + DX(e) && draw(y, x, e) < SPREAD_CHANCE))
  {
    AttemptAdvance(flags, w, h, draw, ty, tx, 0, y, x, e);
    AttemptAdvance(flags, w, h, draw, ty, tx, 1, y, x, e);
    AttemptAdvance(flags, w, h, draw, ty, tx, 2, y, x, e);
    AttemptAdvance(flags, w, h, draw, ty, tx, 3, y, x, e);
  }

  /** Passing attempt (y, x, e) adds only itself to the attempts in direction d. */
  lemma AttemptAdvance(flags: Flags, w: nat, h: nat, draw: (int, int, int) -> real,
                       ty: int, tx: int, d: int, y: int, x: int, e: int)
    requires Dims(flags, w, h) && 0 <= y < h && 0 <= x < w
    ensures Attempt(flags, w, h, draw, ty, tx, d, y, x, e + 1) ==
      (Attempt(flags, w, h, draw, ty, tx, d, y, x, e)
       || (d == e && flags[y][x] && ty == y + DY(e) && tx == x + DX(e) && draw(y, x, e) < SPREAD_CHANCE))
  {
  }

  lemma SpreadStep(c0: Matrix, flags: Flags, c: Matrix, nf: Flags, c': Matrix, nf': Flags, w: nat, h: nat,
                   draw: (int, int, int) -> real, y: int, x: int, e: int)
    requires SpreadSoFar(c0, flags, c, nf, w, h, draw, y, x, e)
    requires 0 <= y < h && 0 <= x < w && 0 <= e < 4 && flags[y][x]
    requires var nx, ny := x + DX(e), y + DY(e);
      if 0 <= nx < w && 0 <= ny < h && c[ny][nx] > EMPTY && !flags[ny][nx] && draw(y, x, e) < SPREAD_CHANCE
      then nf' == nf[ny := nf[ny][nx := true]] && c' == c[ny := c[ny][nx := VIRUS]]
      else nf' == nf && c' == c
    ensures SpreadSoFar(c0, flags, c', nf', w, h, draw, y, x, e + 1)
  {
    var e1 := e + 1;
    forall ty, tx | 0 <= ty < h && 0 <= tx < w
      ensures SpreadCell(c0, flags, c', nf', w, h, draw, y, x, e1, ty, tx)
    {
      CaughtAdvance(flags, w, h, draw, ty, tx, y, x, e);
      assert SpreadCell(c0, flags, c, nf, w, h, draw, y, x, e, ty, tx);
    }
  }

  /** Attempts of cell (x, y) are all made, or it had none to make. */
  lemma SpreadNextCell(c0: Matrix, flags: Flags, c: Matrix, nf: Flags, w: nat, h: nat, draw: (int, int, int) -> real,
                       y: int, x: int, e: int)
    requires SpreadSoFar(c0, flags, c, nf, w, h, draw, y, x, e)
    requires 0 <= y < h && 0 <= x < w && (e == 4 || (e == 0 && !flags[y][x]))
    ensures SpreadSoFar(c0, flags, c, nf, w, h, draw, y, x + 1, 0)
  {
    var x1 := x + 1;
    forall ty, tx | 0 <= ty < h && 0 <= tx < w
      ensures SpreadCell(c0, flags, c, nf, w, h, draw, y, x1, 0, ty, tx)
    {
      assert Caught(flags, w, h, draw, ty, tx, y, x + 1, 0) == Caught(flags, w, h, draw, ty, tx, y, x, e);
      assert SpreadCell(c0, flags, c, nf, w, h, draw, y, x, e, ty, tx);
    }
  }

  lemma SpreadNextRow(c0: Matrix, flags: Flags, c: Matrix, nf: Flags, w: nat, h: nat, draw: (int, int, int) -> real, y: int)
    requires SpreadSoFar(c0, flags, c, nf, w, h, draw, y, w, 0)
    requires 0 <= y < h
    ensures SpreadSoFar(c0, flags, c, nf, w, h, draw, y + 1, 0, 0)
  {
    var y1 := y + 1;
    forall ty, tx | 0 <= ty < h && 0 <= tx < w
      ensures SpreadCell(c0, flags, c, nf, w, h, draw, y1, 0, 0, ty, tx)
    {
      assert Caught(flags, w, h, draw, ty, tx, y + 1, 0, 0) == Caught(flags, w, h, draw, ty, tx, y, w, 0);
      assert SpreadCell(c0, flags, c, nf, w, h, draw, y, w, 0, ty, tx);
    }
  }

  lemma SpreadDone(c0: Matrix, flags: Flags, c: Matrix, nf: Flags, w: nat, h: nat, draw: (int, int, int) -> real)
    requires SpreadSoFar(c0, flags, c, nf, w, h, draw, h, 0, 0)
    ensures c == SpreadCells(c0, flags, w, h, draw)
    ensures nf == SpreadFlags(c0, flags, w, h, draw)
  {
    forall ty, tx | 0 <= ty < h && 0 <= tx < w
      ensures c[ty][tx] == SpreadCells(c0, flags, w, h, draw)[ty][tx]
      ensures nf[ty][tx] == SpreadFlags(c0, flags, w, h, draw)[ty][tx]
    {
      assert SpreadCell(c0, flags, c, nf, w, h, draw, h, 0, 0, ty, tx);
    }
    assert forall ty :: 0 <= ty < h ==> c[ty] == SpreadCells(c0, flags, w, h, draw)[ty];
    assert forall ty :: 0 <= ty < h ==> nf[ty] == SpreadFlags(c0, flags, w, h, draw)[ty];
  }

  lemma SpreadStart(c0: Matrix, flags: Flags, w: nat, h: nat, draw: (int, int, int) -> real)
    requires Dims(c0, w, h) && Dims(flags, w, h)
    ensures SpreadSoFar(c0, flags, c0, flags, w, h, draw, 0, 0, 0)
  {
    forall ty, tx | 0 <= ty < h && 0 <= tx < w
      ensures SpreadCell(c0, flags, c0, flags, w, h, draw, 0, 0, 0, ty, tx)
    {
      assert !Caught(flags, w, h, draw, ty, tx, 0, 0, 0);
    }
  }

  /** The spread timer after n calls of UpdateVirusSpread from 0. */
  function SpreadTimerAfter(n: nat): int {
    if n == 0 then 0 else
      var t := SpreadTimerAfter(n - 1) + 1;
      if t >= SPREAD_DELAY then 0 else t
  }

  /** The timer stays in [0, 180) and call n spreads exactly when n is a multiple of 180. */
  lemma {:induction false} SpreadTimerCycle(n: nat)
    ensures SpreadTimerAfter(n) == n % SPREAD_DELAY
    ensures n > 0 ==> (SpreadTimerAfter(n - 1) + 1 >= SPREAD_DELAY <==> n % SPREAD_DELAY == 0)
  {
    if n > 0 {
      SpreadTimerCycle(n - 1);
    }
  }

  // ---------------------------------------------------------------------
  // Clearing all virus blocks (done by GameLogic.clearVirusBlocks)

  /** Every infected cell emptied, every other cell kept. */
  function PurgedCells(cells: Matrix, flags: Flags, w: nat, h: nat): (r: Matrix)
    requires Dims(cells, w, h) && Dims(flags, w, h)
    ensures Dims(r, w, h)
  {
    seq(h, y requires 0 <= y < h => seq(w, x requires 0 <= x < w => if flags[y][x] then EMPTY else cells[y][x]))
  }

  /** One board cell while the purge scans: emptied and disinfected if it
      is infected and comes before (i, j), as it was otherwise. */
  ghost predicate PurgedCell(c0: Matrix, f0: Flags, c: Matrix, f: Flags, w: nat, h: nat, i: int, j: int, y: int, x: int)
    requires Dims(c0, w, h) && Dims(f0, w, h) && Dims(c, w, h) && Dims(f, w, h) && 0 <= y < h && 0 <= x < w
  {
    if Before2(y, x, i, j) then c[y][x] == (if f0[y][x] then EMPTY else c0[y][x]) && !f[y][x]
    else c[y][x] == c0[y][x] && f[y][x] == f0[y][x]
  }

  ghost predicate PurgedSoFar(c0: Matrix, f0: Flags, c: Matrix, f: Flags, w: nat, h: nat, i: int, j: int) {
    Dims(c0, w, h) && Dims(f0, w, h) && Dims(c, w, h) && Dims(f, w, h)
    && forall y, x :: 0 <= y < h && 0 <= x < w ==> PurgedCell(c0, f0, c, f, w, h, i, j, y, x)
  }

  lemma PurgeStart(c0: Matrix, f0: Flags, w: nat, h: nat)
    requires Dims(c0, w, h) && Dims(f0, w, h)
    ensures PurgedSoFar(c0, f0, c0, f0, w, h, 0, 0)
  {
  }

  lemma PurgeStep(c0: Matrix, f0: Flags, c: Matrix, f: Flags, c': Matrix, f': Flags, w: nat, h: nat, i: int, j: int)
    requires PurgedSoFar(c0, f0, c, f, w, h, i, j) && 0 <= i < h && 0 <= j < w
    requires if f[i][j] then c' == c[i := c[i][j := EMPTY]] && f' == f[i := f[i][j := false]] else c' == c && f' == f
    ensures PurgedSoFar(c0, f0, c', f', w, h, i, j + 1)
  {
    var j1 := j + 1;
    forall y, x | 0 <= y < h && 0 <= x < w
      ensures PurgedCell(c0, f0, c', f', w, h, i, j1, y, x)
    {
      assert PurgedCell(c0, f0, c, f, w, h, i, j, y, x);
    }
  }

  lemma PurgeNextRow(c0: Matrix, f0: Flags, c: Matrix, f: Flags, w: nat, h: nat, i: int)
    requires PurgedSoFar(c0, f0, c, f, w, h, i, w) && 0 <= i < h
    ensures PurgedSoFar(c0, f0, c, f, w, h, i + 1, 0)
  {
    var i1 := i + 1;
    forall y, x | 0 <= y < h && 0 <= x < w
      ensures PurgedCell(c0, f0, c, f, w, h, i1, 0, y, x)
    {
      assert PurgedCell(c0, f0, c, f, w, h, i, w, y, x);
    }
  }

  lemma PurgeDone(c0: Matrix, f0: Flags, c: Matrix, f: Flags, w: nat, h: nat)
    requires PurgedSoFar(c0, f0, c, f, w, h, h, 0)
    ensures c == PurgedCells(c0, f0, w, h) && f == Repeat(h, CleanRow(w))
  {
    forall y, x | 0 <= y < h && 0 <= x < w
      ensures c[y][x] == PurgedCells(c0, f0, w, h)[y][x] && !f[y][x]
    {
      assert PurgedCell(c0, f0, c, f, w, h, h, 0, y, x);
    }
    assert forall y :: 0 <= y < h ==> c[y] == PurgedCells(c0, f0, w, h)[y];
    assert forall y :: 0 <= y < h ==> f[y] == CleanRow(w);
  }

  // ---------------------------------------------------------------------
  // Row scans

  /** Whether every entry is occupied, scanning left to right. */
  function AllOccupied(row: seq<int>): (b: bool)
    ensures b <==> FullRow(row)
  {
    if row == [] then true
    else
      var rest := AllOccupied(row[1..]);
      assert forall x :: 1 <= x < |row| ==> row[x] == row[1..][x - 1];
      row[0] != EMPTY && rest
  }

  /** Whether some entry is occupied, scanning left to right. */
  function AnyOccupied(row: seq<int>): (b: bool)
    ensures b <==> exists x :: 0 <= x < |row| && row[x] != EMPTY
  {
    if row == [] then false
    else if row[0] != EMPTY then true
    else
      var rest := AnyOccupied(row[1..]);
      assert forall x :: 1 <= x < |row| ==> row[x] == row[1..][x - 1];
      rest
  }

  // ---------------------------------------------------------------------
  // The board object

  class Grid {
    const width: nat
    const height: nat
    var cells: Matrix
    var virusCells: Flags
    var virusSpreadTimer: int

    /** Both matrices are height x width and the timer is below the delay. */
    ghost predicate Valid()
      reads this
    {
      Dims(cells, width, height) && Dims(virusCells, width, height) && 0 <= virusSpreadTimer < SPREAD_DELAY
    }

    /** Infected cells are never empty. */
    ghost predicate Consistent()
      reads this
    {
      VirusOnBlocks(cells, virusCells)
    }

    constructor (w: nat, h: nat)
      ensures Valid() && Consistent() && width == w && height == h
      ensures cells == Repeat(h, EmptyRow(w)) && virusCells == Repeat(h, CleanRow(w))
      ensures virusSpreadTimer == 0
    {
      width, height := w, h;
      cells := Repeat(h, EmptyRow(w));
      virusCells := Repeat(h, CleanRow(w));
      virusSpreadTimer := 0;
    }

    /** The per-tick update of the board. */
    method Update(draw: (int, int, int) -> real)
      requires Valid()
      modifies this
      ensures Valid()
      ensures virusSpreadTimer == (old(virusSpreadTimer) + 1) % SPREAD_DELAY
      ensures old(virusSpreadTimer) + 1 == SPREAD_DELAY ==>
        cells == SpreadCells(old(cells), old(virusCells), width, height, draw)
        && virusCells == SpreadFlags(old(cells), old(virusCells), width, height, draw)
      ensures old(virusSpreadTimer) + 1 < SPREAD_DELAY ==>
        cells == old(cells) && virusCells == old(virusCells)
      ensures old(Consistent()) ==> Consistent()
    {
      UpdateVirusSpread(draw);
    }

    /** Counts one call; every SPREAD_DELAY-th call spreads and resets the count. */
    method UpdateVirusSpread(draw: (int, int, int) -> real)
      requires Valid()
      modifies this
      ensures Valid()
      ensures virusSpreadTimer == (old(virusSpreadTimer) + 1) % SPREAD_DELAY
      ensures old(virusSpreadTimer) + 1 == SPREAD_DELAY ==>
        cells == SpreadCells(old(cells), old(virusCells), width, height, draw)
        && virusCells == SpreadFlags(old(cells), old(virusCells), width, height, draw)
      ensures old(virusSpreadTimer) + 1 < SPREAD_DELAY ==>
        cells == old(cells) && virusCells == old(virusCells)
      ensures old(Consistent()) ==> Consistent()
    {
      virusSpreadTimer := virusSpreadTimer + 1;
      if virusSpreadTimer >= SPREAD_DELAY {
        if Consistent() {
          SpreadKeepsVirusOnBlocks(cells, virusCells, width, height, draw);
        }
        SpreadVirus(draw);
        virusSpreadTimer := 0;
      }
    }

    /** Each cell infected in the snapshot tries each of its four neighbours;
        draw(y, x, d) is the draw for the attempt of cell (x, y) in direction d. */
    method SpreadVirus(draw: (int, int, int) -> real)
      requires Dims(cells, width, height) && Dims(virusCells, width, height)
      modifies this
      ensures Dims(cells, width, height) && Dims(virusCells, width, height)
      ensures virusSpreadTimer == old(virusSpreadTimer)
      ensures cells == SpreadCells(old(cells), old(virusCells), width, height, draw)
      ensures virusCells == SpreadFlags(old(cells), old(virusCells), width, height, draw)
    {
      var newVirusCells := virusCells;
      ghost var c0 := cells;
      SpreadStart(c0, virusCells, width, height, draw);
      for y := 0 to height
        invariant virusCells == old(virusCells) && virusSpreadTimer == old(virusSpreadTimer)
        invariant SpreadSoFar(c0, virusCells, cells, newVirusCells, width, height, draw, y, 0, 0)
      {
        for x := 0 to width
          invariant virusCells == old(virusCells) && virusSpreadTimer == old(virusSpreadTimer)
          invariant SpreadSoFar(c0, virusCells, cells, newVirusCells, width, height, draw, y, x, 0)
        {
          if virusCells[y][x] {
            for d := 0 to 4
              invariant virusCells == old(virusCells) && virusSpreadTimer == old(virusSpreadTimer)
              invariant SpreadSoFar(c0, virusCells, cells, newVirusCells, width, height, draw, y, x, d)
            {
              var newX, newY := x + DX(d), y + DY(d);
              ghost var cBefore, fBefore := cells, newVirusCells;
              if IsValidPosition(newX, newY) && cells[newY][newX] > EMPTY && !virusCells[newY][newX]
                 && draw(y, x, d) < SPREAD_CHANCE {
                newVirusCells := newVirusCells[newY := newVirusCells[newY][newX := true]];
                cells := cells[newY := cells[newY][newX := VIRUS]];
              }
              SpreadStep(c0, virusCells, cBefore, fBefore, cells, newVirusCells, width, height, draw, y, x, d);
            }
            SpreadNextCell(c0, virusCells, cells, newVirusCells, width, height, draw, y, x, 4);
          } else {
            SpreadNextCell(c0, virusCells, cells, newVirusCells, width, height, draw, y, x, 0);
          }
        }
        SpreadNextRow(c0, virusCells, cells, newVirusCells, width, height, draw, y);
      }
      SpreadDone(c0, virusCells, cells, newVirusCells, width, height, draw);
      virusCells := newVirusCells;
    }

    /** Whether (x, y) is a cell of the board. */
    predicate IsValidPosition(x: int, y: int)
      reads this
    {
      0 <= x < width && 0 <= y < height
    }

    /** Read-only placement check, giving up at the first blocked shape cell. */
    method CanPlacePiece(piece: Piece, x: int, y: int) returns (ok: bool)
      requires Valid()
      ensures ok == Fits(cells, width, height, piece.shape, x, y)
    {
      var shape := piece.shape;
      for py := 0 to |shape|
        invariant forall py', px :: py' < py && Occupied(shape, py', px) ==> FreeAt(cells, width, height, x + px, y + py')
      {
        for px := 0 to |shape[py]|
          invariant forall py', px' :: Before2(py', px', py, px) && Occupied(shape, py', px') ==>
            FreeAt(cells, width, height, x + px', y + py')
        {
          if shape[py][px] != EMPTY {
            var worldX, worldY := x + px, y + py;
            if !IsValidPosition(worldX, worldY) || cells[worldY][worldX] != EMPTY {
              assert Occupied(shape, py, px) && !FreeAt(cells, width, height, x + px, y + py);
              return false;
            }
          }
        }
      }
      return true;
    }

    /** Commits the piece: every in-bounds occupied cell takes the piece's
        type, or becomes an infected virus block when infect(py, px) < 0.1. */
    method PlacePiece(piece: Piece, infect: (int, int) -> real)
      requires Valid()
      modifies this
      ensures Valid() && virusSpreadTimer == old(virusSpreadTimer)
      ensures cells == PlaceCells(old(cells), width, height, piece.shape, piece.x, piece.y, piece.blockType, infect)
      ensures virusCells == PlaceFlags(old(virusCells), width, height, piece.shape, piece.x, piece.y, infect)
    {
      var shape := piece.shape;
      ghost var c0, f0 := cells, virusCells;
      assert PlacedSoFar(c0, f0, cells, virusCells, width, height, shape, piece.x, piece.y, piece.blockType, infect, 0, 0);
      for py := 0 to |shape|
        invariant Valid() && virusSpreadTimer == old(virusSpreadTimer)
        invariant PlacedSoFar(c0, f0, cells, virusCells, width, height, shape, piece.x, piece.y, piece.blockType, infect, py, 0)
      {
        for px := 0 to |shape[py]|
          invariant Valid() && virusSpreadTimer == old(virusSpreadTimer)
          invariant PlacedSoFar(c0, f0, cells, virusCells, width, height, shape, piece.x, piece.y, piece.blockType, infect, py, px)
        {
          ghost var cb, fb := cells, virusCells;
          if shape[py][px] != EMPTY {
            var worldX, worldY := piece.x + px, piece.y + py;
            if IsValidPosition(worldX, worldY) {
              cells := cells[worldY := cells[worldY][worldX := piece.blockType]];
              if infect(py, px) < INFECT_CHANCE {
                virusCells := virusCells[worldY := virusCells[worldY][worldX := true]];
                cells := cells[worldY := cells[worldY][worldX := VIRUS]];
                assert cells[worldY] == cb[worldY][worldX := VIRUS];
              }
              assert cells == cb[worldY := cb[worldY][worldX := Stamp(piece.blockType, infect(py, px))]];
            }
          }
          PlaceStep(c0, f0, cb, fb, cells, virusCells, width, height, shape, piece.x, piece.y, piece.blockType, infect, py, px);
        }
        PlaceNextRow(c0, f0, cells, virusCells, width, height, shape, piece.x, piece.y, piece.blockType, infect, py);
      }
      PlaceDone(c0, f0, cells, virusCells, width, height, shape, piece.x, piece.y, piece.blockType, infect);
    }

    /** Whether every cell of row y is occupied. */
    function IsLineFull(y: int): (full: bool)
      reads this
      requires Valid() && 0 <= y < height
      ensures full == FullRow(cells[y])
    {
      AllOccupied(cells[y])
    }

    /** Removes row y and inserts an empty row on top, in both matrices. */
    method ClearLine(y: int)
      requires Valid() && 0 <= y < height
      modifies this
      ensures Valid() && virusSpreadTimer == old(virusSpreadTimer)
      ensures cells == [EmptyRow(width)] + old(cells)[..y] + old(cells)[y + 1..]
      ensures virusCells == [CleanRow(width)] + old(virusCells)[..y] + old(virusCells)[y + 1..]
    {
      cells := [EmptyRow(width)] + cells[..y] + cells[y + 1..];
      virusCells := [CleanRow(width)] + virusCells[..y] + virusCells[y + 1..];
    }

    /** Scans rows bottom to top, removing each full row and looking at the
        same index again; returns how many rows were removed. */
    method ClearFullLines() returns (linesCleared: int)
      requires Valid() && width > 0
      modifies this
      ensures Valid() && virusSpreadTimer == old(virusSpreadTimer)
      ensures linesCleared == FullCount(old(cells))
      ensures cells == Repeat(linesCleared, EmptyRow(width)) + KeptRows(old(cells))
      ensures virusCells == Repeat(linesCleared, CleanRow(width)) + KeptFlags(old(cells), old(virusCells))
    {
      ghost var O, V := cells, virusCells;
      ghost var p: nat := height;
      linesCleared := 0;
      var y := height - 1;
      ClearScanStart(O, V, width);
      while y >= 0
        invariant Valid() && virusSpreadTimer == old(virusSpreadTimer) && linesCleared >= 0
        invariant ClearScanned(O, V, p, linesCleared, width, cells, virusCells) && ScanPoint(p, linesCleared, y)
        decreases p + y + 1
      {
        ClearScanAt(O, V, p, linesCleared, width, cells, virusCells, y);
        if IsLineFull(y) {
          ClearLine(y);
          linesCleared := linesCleared + 1;
          p := p - 1;
        } else {
          p := if p > 0 then p - 1 else 0;
          y := y - 1;
        }
      }
      ClearScanDone(O, V, linesCleared, width, cells, virusCells);
    }

    /** Whether some cell of the top row is occupied. */
    function IsGameOver(): (over: bool)
      reads this
      requires Valid() && height > 0
      ensures over <==> exists x :: 0 <= x < width && cells[0][x] != EMPTY
    {
      AnyOccupied(cells[0])
    }
  }

  /** The lowest row the piece can drop to, trying one row further each time. */
  method GhostPosition(piece: Piece, grid: Grid) returns (ghostY: int)
    requires grid.Valid()
    requires exists py, px :: Occupied(piece.shape, py, px)
    ensures ghostY >= piece.y
    ensures forall k :: piece.y < k <= ghostY ==> Fits(grid.cells, grid.width, grid.height, piece.shape, piece.x, k)
    ensures !Fits(grid.cells, grid.width, grid.height, piece.shape, piece.x, ghostY + 1)
  {
    ghost var py, px :| Occupied(piece.shape, py, px);
    ghostY := piece.y;
    var below := grid.CanPlacePiece(piece, piece.x, ghostY + 1);
    while below
      invariant ghostY >= piece.y
      invariant forall k :: piece.y < k <= ghostY ==> Fits(grid.cells, grid.width, grid.height, piece.shape, piece.x, k)
      invariant below == Fits(grid.cells, grid.width, grid.height, piece.shape, piece.x, ghostY + 1)
      decreases grid.height - ghostY
    {
      assert FreeAt(grid.cells, grid.width, grid.height, piece.x + px, ghostY + 1 + py);
      ghostY := ghostY + 1;
      below := grid.CanPlacePiece(piece, piece.x, ghostY + 1);
    }
  }
}
