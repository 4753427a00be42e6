/**
 * The sequential, integer-valued parts of DIPSoftware/Utils.cpp:
 * the file-name extension routine and the fan-out that splits an image
 * into 4 row bands by 2 column halves and runs one worker per tile.
 * The per-pixel formulas (lightness, saturation, hue) are floating-point
 * colour maths and appear here only as an uninterpreted function `f`.
 */
module Utils {

  // ---------------------------------------------------------------------
  // getExtension
  // ---------------------------------------------------------------------

  /** `size_t` is 64 bits wide; `std::string::npos` is its largest value. */
  const SIZE_T_MODULUS: nat := 0x1_0000_0000_0000_0000
  const NPOS: nat := SIZE_T_MODULUS - 1

  /** `std::string::find_last_of` for a single character: the index of the
      last occurrence of `c` in `s`, or `NPOS` when `c` does not occur. */
  function FindLastOf(s: string, c: char): (pos: nat)
    requires |s| < NPOS
    ensures pos == NPOS <==> c !in s
    ensures pos != NPOS ==> pos < |s| && s[pos] == c && c !in s[pos + 1..]
  {
    if s == [] then NPOS
    else if s[|s| - 1] == c then |s| - 1
    else
      var init := s[..|s| - 1];
      assert s == init + [s[|s| - 1]];
      var p := FindLastOf(init, c);
      assert p != NPOS ==> s[p + 1..] == init[p + 1..] + [s[|s| - 1]];
      p
  }

  /** `Utils::getExtension`: copies the characters after the last '.'.
      With no '.', `npos + 1` wraps round to 0 and the whole name is copied. */
  method GetExtension(str: string) returns (res: string)
    requires |str| < NPOS
    ensures '.' !in res
    ensures |res| <= |str| && res == str[|str| - |res|..]
    ensures '.' in str ==> |res| < |str| && str[|str| - |res| - 1] == '.'
    ensures '.' !in str ==> res == str
    ensures |str| > 0 && str[|str| - 1] == '.' ==> res == []
  {
    var pos := FindLastOf(str, '.');
    var i := (pos + 1) % SIZE_T_MODULUS;
    ghost var start := i;
    res := [];
    while i < |str|
      invariant start <= i <= |str|
      invariant res == str[start..i]
    {
      res := res + [str[i]];
      i := i + 1;
    }
  }

  // ---------------------------------------------------------------------
  // The 8-tile fan-out of changeImageMatLightness/Saturation/Hue
  // ---------------------------------------------------------------------

  /** One unit of work: the rectangle [x0, x1) x [y0, y1) of rows and columns. */
  datatype Tile = Tile(x0: nat, x1: nat, y0: nat, y1: nat)

  predicate InTile(t: Tile, i: int, j: int) {
    t.x0 <= i < t.x1 && t.y0 <= j < t.y1
  }

  /** The band bounds `x[5]`: non-decreasing, from 0 to `rows`. */
  function RowBounds(rows: nat): (b: seq<nat>)
    ensures |b| == 5 && b[0] == 0 && b[4] == rows
    ensures forall k :: 0 <= k < 4 ==> b[k] <= b[k + 1]
  {
    assert rows / 4 <= rows / 2;
    assert rows / 2 <= rows * 3 / 4 by {
      assert (rows * 3) / 4 >= (rows * 2) / 4;
      assert (rows * 2) / 4 == rows / 2;
    }
    [0, rows / 4, rows / 2, rows * 3 / 4, rows]
  }

  /** The half bounds `y[3]`: non-decreasing, from 0 to `cols`. */
  function ColBounds(cols: nat): (b: seq<nat>)
    ensures |b| == 3 && b[0] == 0 && b[2] == cols
    ensures forall k :: 0 <= k < 2 ==> b[k] <= b[k + 1]
  {
    [0, cols / 2, cols]
  }

  /** The future slot `i + i + j` of band `i` and half `j`; it determines
      both, so distinct tiles never share a slot. */
  function Slot(band: nat, half: nat): (k: nat)
    requires band < 4 && half < 2
    ensures k < 8 && k / 2 == band && k % 2 == half
  {
    band + band + half
  }

  /** The tile whose worker is stored in slot `k`; it lies inside the grid. */
  function TileOf(rows: nat, cols: nat, k: nat): (t: Tile)
    requires k < 8
    ensures t.x0 <= t.x1 <= rows && t.y0 <= t.y1 <= cols
  {
    var x, y := RowBounds(rows), ColBounds(cols);
    Tile(x[k / 2], x[k / 2 + 1], y[k % 2], y[k % 2 + 1])
  }

  /** The band that holds row `i`. */
  function BandOf(rows: nat, i: nat): (b: nat)
    requires i < rows
    ensures b < 4 && RowBounds(rows)[b] <= i < RowBounds(rows)[b + 1]
  {
    var x := RowBounds(rows);
    if i < x[1] then 0 else if i < x[2] then 1 else if i < x[3] then 2 else 3
  }

  /** The half that holds column `j`. */
  function HalfOf(cols: nat, j: nat): (h: nat)
    requires j < cols
    ensures h < 2 && ColBounds(cols)[h] <= j < ColBounds(cols)[h + 1]
  {
    if j < ColBounds(cols)[1] then 0 else 1
  }

  /** The slot of the one tile that holds cell (i, j). */
  function CellSlot(rows: nat, cols: nat, i: nat, j: nat): (k: nat)
    requires i < rows && j < cols
    ensures k < 8
  {
    Slot(BandOf(rows, i), HalfOf(cols, j))
  }

  /** The 8 tiles partition the grid: every cell of [0,rows) x [0,cols)
      lies in the tile of slot k exactly when k is its CellSlot. */
  lemma TilesPartition(rows: nat, cols: nat, i: nat, j: nat, k: nat)
    requires i < rows && j < cols && k < 8
    ensures InTile(TileOf(rows, cols, k), i, j) <==> k == CellSlot(rows, cols, i, j)
  {
  }

  /** An execution order of the 8 workers: every slot occurs.  The source
      starts the workers as concurrent tasks; because they write disjoint
      tiles, any interleaving has the effect of one such order. */
  predicate IsSchedule(schedule: seq<nat>) {
    && |schedule| == 8
    && (forall n :: 0 <= n < 8 ==> schedule[n] < 8)
    && (forall k :: 0 <= k < 8 ==> k in schedule)
  }

  /** `Utils::changePartialImageMat*`: writes f(mat[i, j]) into `res` at
      every cell of [x0, x1) x [y0, y1) and nowhere else; `mat` is only read. */
  method ChangePartialImageMat<P>(mat: array2<P>, res: array2<P>, f: P -> P,
                                  x0: nat, x1: nat, y0: nat, y1: nat)
    requires res != mat
    requires res.Length0 == mat.Length0 && res.Length1 == mat.Length1
    requires x1 <= mat.Length0 && y1 <= mat.Length1
    modifies res
    ensures forall i, j :: 0 <= i < res.Length0 && 0 <= j < res.Length1 ==>
      res[i, j] == if x0 <= i < x1 && y0 <= j < y1 then f(mat[i, j]) else old(res[i, j])
  {
    var i := x0;
    while i < x1
      invariant x0 <= i && (i <= x1 || i == x0)
      invariant forall r, c :: 0 <= r < res.Length0 && 0 <= c < res.Length1 ==>
        res[r, c] == if x0 <= r < i && y0 <= c < y1 then f(mat[r, c]) else old(res[r, c])
    {
      var j := y0;
      while j < y1
        invariant y0 <= j && (j <= y1 || j == y0)
        invariant forall r, c :: 0 <= r < res.Length0 && 0 <= c < res.Length1 ==>
          res[r, c] == if (x0 <= r < i && y0 <= c < y1) || (r == i && y0 <= c < j) then f(mat[r, c]) else old(res[r, c])
      {
        res[i, j] := f(mat[i, j]);
        j := j + 1;
      }
      i := i + 1;
    }
  }

  /** `Utils::changeImageMatLightness/Saturation/Hue`: allocates the result,
      prepares the 8 tile tasks in slot `i + i + j`, runs them all (in the
      order `schedule`) and returns the pointwise map of `f` over `mat`. */
  method ChangeImageMat<P(0)>(mat: array2<P>, f: P -> P, schedule: seq<nat>) returns (res: array2<P>)
    requires IsSchedule(schedule)
    ensures fresh(res)
    ensures res.Length0 == mat.Length0 && res.Length1 == mat.Length1
    ensures forall i, j :: 0 <= i < res.Length0 && 0 <= j < res.Length1 ==> res[i, j] == f(mat[i, j])
  {
    var rows, cols := mat.Length0, mat.Length1;
    res := new P[rows, cols];
    var x := RowBounds(rows);
    var y := ColBounds(cols);
    var tasks := new Tile[8];
    for i := 0 to 4
      invariant forall k :: 0 <= k < i + i ==> tasks[k] == TileOf(rows, cols, k)
    {
      for j := 0 to 2
        invariant forall k :: 0 <= k < i + i + j ==> tasks[k] == TileOf(rows, cols, k)
      {
        tasks[i + i + j] := Tile(x[i], x[i + 1], y[j], y[j + 1]);
      }
    }
    for n := 0 to 8
      invariant forall k :: 0 <= k < 8 ==> tasks[k] == TileOf(rows, cols, k)
      invariant forall i, j :: 0 <= i < rows && 0 <= j < cols && CellSlot(rows, cols, i, j) in schedule[..n] ==>
        res[i, j] == f(mat[i, j])
    {
      var s := schedule[n];
      var t := tasks[s];
      ChangePartialImageMat(mat, res, f, t.x0, t.x1, t.y0, t.y1);
      forall i, j | 0 <= i < rows && 0 <= j < cols && CellSlot(rows, cols, i, j) == s
        ensures InTile(t, i, j)
      {
        TilesPartition(rows, cols, i, j, s);
      }
      assert schedule[..n + 1] == schedule[..n] + [s];
    }
    assert schedule[..8] == schedule;
  }
}
