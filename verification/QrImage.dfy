/**
 The QR image: every module of the symbol becomes a rectangle of pixels by integer arithmetic, inside a white border
 of four modules, and the product name is wrapped below it.
 */
module QrImage {
  import opened Basics

  const IMAGE_SIZE := 1024
  const LABEL_HEIGHT := 256
  const CANVAS_HEIGHT := IMAGE_SIZE + LABEL_HEIGHT
  const BORDER := 4

  datatype QrError = NotSquare | EmptyRectangle | CharacterTooWide

  // ---------------------------------------------------------------------------
  // Which pixels belong to which module
  // ---------------------------------------------------------------------------

  /** The first pixel of module i of a symbol with n modules a side; modules -4 to -1 and n to n + 3 are the border. */
  function Lo(i: int, n: nat): int {
    (i + BORDER) * IMAGE_SIZE / (n + 2 * BORDER)
  }

  function Width(i: int, n: nat): int {
    Lo(i + 1, n) - Lo(i, n)
  }

  predicate InCell(x: int, i: int, n: nat) {
    Lo(i, n) <= x < Lo(i + 1, n)
  }

  /** The module a pixel belongs to, read off the pixel alone. */
  function ModuleAt(x: nat, n: nat): int {
    ((x + 1) * (n + 2 * BORDER) - 1) / IMAGE_SIZE - BORDER
  }

  lemma QuotientBounds(a: int, m: int)
    requires m > 0
    ensures a / m * m <= a < (a / m + 1) * m
  {}

  /** A quotient is at most q exactly when the numerator is below the next multiple. */
  lemma QuotientAtMost(a: int, m: int, q: int)
    requires m > 0
    ensures a / m <= q <==> a < (q + 1) * m
  {
    QuotientBounds(a, m);
    if a / m <= q {
      assert (a / m + 1) * m <= (q + 1) * m;
    } else {
      assert (q + 1) * m <= a / m * m;
    }
  }

  lemma StartsAtOrBefore(x: nat, i: int, n: nat)
    ensures Lo(i, n) <= x <==> i <= ModuleAt(x, n)
  {
    var m := n + 2 * BORDER;
    QuotientAtMost((i + BORDER) * IMAGE_SIZE, m, x);
    var a := (x + 1) * m - 1;
    QuotientAtMost(a, IMAGE_SIZE, i + BORDER - 1);
    assert (i + BORDER) * IMAGE_SIZE < (x + 1) * m <==> (i + BORDER) * IMAGE_SIZE <= a;
  }

  /** The cells tile the line of pixels: each pixel lies in one cell, that of its module, and in no other. */
  lemma PixelsTile(x: nat, i: int, n: nat)
    requires x < IMAGE_SIZE
    ensures InCell(x, i, n) <==> i == ModuleAt(x, n)
    ensures -BORDER <= ModuleAt(x, n) < n + BORDER
  {
    StartsAtOrBefore(x, i, n);
    StartsAtOrBefore(x, i + 1, n);
    StartsAtOrBefore(x, -BORDER, n);
    StartsAtOrBefore(x, n + BORDER, n);
    assert Lo(n + BORDER, n) == IMAGE_SIZE by {
      var m := n + 2 * BORDER;
      assert (n + BORDER + BORDER) * IMAGE_SIZE == IMAGE_SIZE * m;
      QuotientAtMost(IMAGE_SIZE * m, m, IMAGE_SIZE);
      QuotientAtMost(IMAGE_SIZE * m, m, IMAGE_SIZE - 1);
    }
  }

  /** All widths are the quotient of the image size by the number of modules, or one more. */
  lemma WidthsAreEven(i: int, n: nat)
    ensures var q := IMAGE_SIZE / (n + 2 * BORDER); q <= Width(i, n) <= q + 1
  {
    var m := n + 2 * BORDER;
    var q := IMAGE_SIZE / m;
    var a := (i + BORDER) * IMAGE_SIZE;
    QuotientBounds(IMAGE_SIZE, m);
    QuotientBounds(a, m);
    QuotientBounds(a + IMAGE_SIZE, m);
    assert (i + 1 + BORDER) * IMAGE_SIZE == a + IMAGE_SIZE;
    var lo, hi := a / m, (a + IMAGE_SIZE) / m;
    QuotientAtMost(a + IMAGE_SIZE, m, lo + q + 1);
    QuotientAtMost(a + IMAGE_SIZE, m, lo + q - 1);
    assert (lo + q + 1 + 1) * m == (lo + 1) * m + (q + 1) * m;
    assert (lo + q - 1 + 1) * m == lo * m + q * m;
  }

  // ---------------------------------------------------------------------------
  // Painting
  // ---------------------------------------------------------------------------

  type Matrix = seq<seq<bool>>

  predicate IsSquare(matrix: Matrix) {
    matrix != [] && forall row | row in matrix :: |row| == |matrix|
  }

  /** Every table of n rows of n modules is such a matrix. */
  lemma TablesAreSquare(n: nat, dark: (nat, nat) -> bool)
    requires n > 0
    ensures IsSquare(seq(n, row requires 0 <= row < n => seq(n, column requires 0 <= column < n => dark(row, column))))
  {
  }

  /** The module that the pixel belongs to is a dark module of the symbol. */
  predicate IsDark(matrix: Matrix, x: nat, y: nat)
    requires IsSquare(matrix)
  {
    var n := |matrix|;
    var column, row := ModuleAt(x, n), ModuleAt(y, n);
    0 <= column < n && 0 <= row < n && y < IMAGE_SIZE && matrix[row][column]
  }

  /** Draw a filled rectangle, both corners included. */
  method Rectangle(image: array2<bool>, x0: nat, y0: nat, x1: nat, y1: nat)
    requires x0 <= x1 < image.Length1 && y0 <= y1 < image.Length0
    modifies image
    ensures forall y, x | 0 <= y < image.Length0 && 0 <= x < image.Length1 ::
              image[y, x] == (old(image[y, x]) || (y0 <= y <= y1 && x0 <= x <= x1))
  {
    for y := y0 to y1 + 1
      invariant forall v, u | 0 <= v < image.Length0 && 0 <= u < image.Length1 ::
                  image[v, u] == (old(image[v, u]) || (y0 <= v < y && x0 <= u <= x1))
    {
      for x := x0 to x1 + 1
        invariant forall v, u | 0 <= v < image.Length0 && 0 <= u < image.Length1 ::
                    image[v, u] == (old(image[v, u]) || (y0 <= v < y && x0 <= u <= x1) || (v == y && x0 <= u < x))
      {
        image[y, x] := true;
      }
    }
  }

  /** The modules painted once the given row has been painted up to the given column. */
  predicate PaintedUpTo(matrix: Matrix, row: nat, column: nat, x: nat, y: nat)
    requires IsSquare(matrix)
  {
    IsDark(matrix, x, y) && (ModuleAt(y, |matrix|) < row || (ModuleAt(y, |matrix|) == row && ModuleAt(x, |matrix|) < column))
  }

  /** The image shows exactly these modules. */
  ghost predicate Shows(image: array2<bool>, matrix: Matrix, row: nat, column: nat)
    requires IsSquare(matrix)
    reads image
  {
    && image.Length0 == CANVAS_HEIGHT && image.Length1 == IMAGE_SIZE
    && forall y, x | 0 <= y < CANVAS_HEIGHT && 0 <= x < IMAGE_SIZE :: image[y, x] == PaintedUpTo(matrix, row, column, x, y)
  }

  /** Nothing is painted before the first module, a light module adds nothing, and a row ends where the next begins. */
  lemma PaintedAtTheEnds(matrix: Matrix, row: nat, column: nat, x: nat, y: nat)
    requires IsSquare(matrix) && row < |matrix| && column < |matrix|
    ensures !PaintedUpTo(matrix, 0, 0, x, y)
    ensures !matrix[row][column] ==>
              (PaintedUpTo(matrix, row, column + 1, x, y) <==> PaintedUpTo(matrix, row, column, x, y))
    ensures PaintedUpTo(matrix, row, |matrix|, x, y) <==> PaintedUpTo(matrix, row + 1, 0, x, y)
    ensures PaintedUpTo(matrix, |matrix|, 0, x, y) <==> IsDark(matrix, x, y)
  {}

  lemma ShowsAtTheEnds(image: array2<bool>, matrix: Matrix, row: nat, column: nat)
    requires IsSquare(matrix) && row < |matrix| && column < |matrix|
    requires image.Length0 == CANVAS_HEIGHT && image.Length1 == IMAGE_SIZE
    ensures !matrix[row][column] && Shows(image, matrix, row, column) ==> Shows(image, matrix, row, column + 1)
    ensures Shows(image, matrix, row, |matrix|) ==> Shows(image, matrix, row + 1, 0)
    ensures Shows(image, matrix, |matrix|, 0) ==>
              forall y, x | 0 <= y < CANVAS_HEIGHT && 0 <= x < IMAGE_SIZE :: image[y, x] == IsDark(matrix, x, y)
  {
    hide PaintedUpTo, IsDark;
    forall x: nat, y: nat {
      PaintedAtTheEnds(matrix, row, column, x, y);
    }
  }

  /** Paint one dark module, unless its rectangle would be empty. */
  method PaintModule(image: array2<bool>, matrix: Matrix, row: nat, column: nat) returns (ok: bool)
    requires IsSquare(matrix) && row < |matrix| && column < |matrix| && matrix[row][column]
    requires Shows(image, matrix, row, column)
    modifies image
    ensures ok ==> Shows(image, matrix, row, column + 1)
    ensures |matrix| + 2 * BORDER <= IMAGE_SIZE ==> ok
  {
    hide Lo, PaintedUpTo, IsDark;
    var n := |matrix|;
    var x0, y0, x1, y1 := Lo(column, n), Lo(row, n), Lo(column + 1, n) - 1, Lo(row + 1, n) - 1;
    if x1 < x0 || y1 < y0 {
      WidthsAreEven(column, n);
      WidthsAreEven(row, n);
      AtLeastOne(n);
      return false;
    }
    CellInside(column, n);
    CellInside(row, n);
    Rectangle(image, x0, y0, x1, y1);
    forall x: nat, y: nat | x < IMAGE_SIZE && y < CANVAS_HEIGHT
      ensures PaintedUpTo(matrix, row, column + 1, x, y) <==>
              PaintedUpTo(matrix, row, column, x, y) || (y0 <= y <= y1 && x0 <= x <= x1)
    {
      OneMoreModule(matrix, row, column, x, y);
    }
    return true;
  }

  lemma AtLeastOne(n: nat)
    ensures n + 2 * BORDER <= IMAGE_SIZE ==> IMAGE_SIZE / (n + 2 * BORDER) >= 1
  {
    QuotientAtMost(IMAGE_SIZE, n + 2 * BORDER, 0);
  }

  /** The loops of the generator; true stands for a black pixel. */
  method Generate(matrix: Matrix) returns (r: Result<array2<bool>, QrError>)
    ensures r.Ok? ==>
              && IsSquare(matrix) && r.value.Length0 == CANVAS_HEIGHT && r.value.Length1 == IMAGE_SIZE
              && forall y, x | 0 <= y < CANVAS_HEIGHT && 0 <= x < IMAGE_SIZE :: r.value[y, x] == IsDark(matrix, x, y)
    ensures r == Err(NotSquare) <==> !IsSquare(matrix)
    ensures |matrix| + 2 * BORDER <= IMAGE_SIZE ==> r != Err(EmptyRectangle)
    ensures r.Err? ==> r.error != CharacterTooWide
  {
    hide PaintedUpTo, IsDark;
    if !IsSquare(matrix) {
      return Err(NotSquare);
    }
    var n := |matrix|;
    var image := new bool[CANVAS_HEIGHT, IMAGE_SIZE]((y, x) => false);
    forall x: nat, y: nat {
      PaintedAtTheEnds(matrix, 0, 0, x, y);
    }
    for row := 0 to n
      invariant Shows(image, matrix, row, 0)
    {
      for column := 0 to n
        invariant Shows(image, matrix, row, column)
      {
        ShowsAtTheEnds(image, matrix, row, column);
        if matrix[row][column] {
          var ok := PaintModule(image, matrix, row, column);
          if !ok {
            return Err(EmptyRectangle);
          }
        }
      }
      ShowsAtTheEnds(image, matrix, row, 0);
    }
    ShowsAtTheEnds(image, matrix, 0, 0);
    return Ok(image);
  }

  lemma CellInside(i: nat, n: nat)
    requires i < n
    ensures 0 <= Lo(i, n) && Lo(i + 1, n) <= IMAGE_SIZE
  {
    var m := n + 2 * BORDER;
    QuotientAtMost((i + 1 + BORDER) * IMAGE_SIZE, m, IMAGE_SIZE);
    assert (i + 1 + BORDER) * IMAGE_SIZE <= m * IMAGE_SIZE;
  }

  /** Painting one dark module adds exactly the pixels that belong to it. */
  lemma OneMoreModule(matrix: Matrix, row: nat, column: nat, x: nat, y: nat)
    requires IsSquare(matrix) && row < |matrix| && column < |matrix| && matrix[row][column]
    requires x < IMAGE_SIZE && y < CANVAS_HEIGHT
    ensures PaintedUpTo(matrix, row, column + 1, x, y) <==>
            PaintedUpTo(matrix, row, column, x, y) || (InCell(y, row, |matrix|) && InCell(x, column, |matrix|))
  {
    var n := |matrix|;
    PixelsTile(x, column, n);
    CellInside(row, n);
    if y < IMAGE_SIZE {
      PixelsTile(y, row, n);
    }
  }

  // ---------------------------------------------------------------------------
  // Reading the image back
  // ---------------------------------------------------------------------------

  /** One sample from each cell: the pixel at which column or row i is read. */
  predicate Samples(at: seq<nat>, n: nat) {
    |at| == n && forall i | 0 <= i < n :: InCell(at[i], i, n)
  }

  /** Whatever pixel of each cell is sampled, the symbol comes back. */
  lemma SamplingRecoversTheSymbol(matrix: Matrix, across: seq<nat>, down: seq<nat>)
    requires IsSquare(matrix) && Samples(across, |matrix|) && Samples(down, |matrix|)
    ensures forall row, column | 0 <= row < |matrix| && 0 <= column < |matrix| ::
              IsDark(matrix, across[column], down[row]) == matrix[row][column]
  {
    var n := |matrix|;
    forall row, column | 0 <= row < n && 0 <= column < n
      ensures IsDark(matrix, across[column], down[row]) == matrix[row][column]
    {
      assert InCell(across[column], column, n) && InCell(down[row], row, n);
      CellInside(column, n);
      CellInside(row, n);
      PixelsTile(across[column], column, n);
      PixelsTile(down[row], row, n);
    }
  }

  /** The first pixel of every cell of the symbol. */
  function FirstPixels(n: nat): seq<nat> {
    seq(n, i requires 0 <= i < n => var lo: nat := Lo(i, n); lo)
  }

  /** With at most as many modules as pixels every cell has a pixel to sample. */
  lemma EveryCellHasPixels(n: nat)
    requires n + 2 * BORDER <= IMAGE_SIZE
    ensures Samples(FirstPixels(n), n)
  {
    forall i | 0 <= i < n
      ensures InCell(Lo(i, n), i, n)
    {
      WidthsAreEven(i, n);
      QuotientAtMost(IMAGE_SIZE, n + 2 * BORDER, 0);
    }
  }

  /** The image determines the symbol. */
  lemma ImageDeterminesSymbol(a: Matrix, b: Matrix)
    requires IsSquare(a) && IsSquare(b) && |a| == |b| && |a| + 2 * BORDER <= IMAGE_SIZE
    requires forall x: nat, y: nat | x < IMAGE_SIZE && y < IMAGE_SIZE :: IsDark(a, x, y) == IsDark(b, x, y)
    ensures a == b
  {
    hide IsDark, Lo;
    var n := |a|;
    EveryCellHasPixels(n);
    var at := FirstPixels(n);
    SamplingRecoversTheSymbol(a, at, at);
    SamplingRecoversTheSymbol(b, at, at);
    forall row, column | 0 <= row < n && 0 <= column < n
      ensures a[row][column] == b[row][column]
    {
      assert InCell(at[row], row, n) && InCell(at[column], column, n);
      CellInside(row, n);
      CellInside(column, n);
      assert IsDark(a, at[column], at[row]) == a[row][column] && IsDark(b, at[column], at[row]) == b[row][column];
    }
    forall row | 0 <= row < n
      ensures a[row] == b[row]
    {
      assert a[row] in a && b[row] in b;
    }
  }

  // ---------------------------------------------------------------------------
  // The quiet zone
  // ---------------------------------------------------------------------------

  /** No module of the symbol lies left of the border or right of it, and the same holds from top to bottom. */
  lemma BorderIsWhite(matrix: Matrix, x: nat, y: nat)
    requires IsSquare(matrix) && x < IMAGE_SIZE && y < IMAGE_SIZE
    requires var n := |matrix|; x < Lo(0, n) || x >= Lo(n, n) || y < Lo(0, n) || y >= Lo(n, n)
    ensures !IsDark(matrix, x, y)
  {
    var n := |matrix|;
    StartsAtOrBefore(x, 0, n);
    StartsAtOrBefore(x, n, n);
    StartsAtOrBefore(y, 0, n);
    StartsAtOrBefore(y, n, n);
  }

  /** The right and bottom borders are never narrower than four modules of the exact size. */
  lemma FarBorder(n: nat)
    ensures (IMAGE_SIZE - Lo(n, n)) * (n + 2 * BORDER) >= BORDER * IMAGE_SIZE
  {
    var m := n + 2 * BORDER;
    QuotientBounds((n + BORDER) * IMAGE_SIZE, m);
    assert (IMAGE_SIZE - Lo(n, n)) * m == IMAGE_SIZE * m - Lo(n, n) * m;
    assert IMAGE_SIZE * m == (n + BORDER) * IMAGE_SIZE + BORDER * IMAGE_SIZE;
  }

  /** Some module of the symbol fits four times into the left border, which is as wide as the top border is high. */
  ghost predicate QuietZoneHolds(n: nat) {
    exists i | 0 <= i < n :: BORDER * Width(i, n) <= Lo(0, n)
  }

  /** The left border falls one pixel short of four of the narrowest modules exactly when the modules divide 1025. */
  lemma QuietZoneHoldsIff(n: nat)
    requires 1 <= n && n + 2 * BORDER <= IMAGE_SIZE
    ensures QuietZoneHolds(n) <==> (IMAGE_SIZE + 1) % (n + 2 * BORDER) != 0
  {
    var m := n + 2 * BORDER;
    if (IMAGE_SIZE + 1) % m == 0 {
      forall i | 0 <= i < n
        ensures BORDER * Width(i, n) > Lo(0, n)
      {
        OneShort(n, 0);
        OneShort(n, i);
        OneShort(n, i + 1);
        var q := (IMAGE_SIZE + 1) / m;
        assert (i + 1 + BORDER) * q == (i + BORDER) * q + q;
      }
    } else {
      SomeModuleIsNarrow(n);
      var i :| 0 <= i < n && Width(i, n) == IMAGE_SIZE / m;
      FourNarrowModulesFit(n);
    }
  }

  lemma OneShort(n: nat, i: nat)
    requires (IMAGE_SIZE + 1) % (n + 2 * BORDER) == 0 && i <= n
    ensures Lo(i, n) == (i + BORDER) * ((IMAGE_SIZE + 1) / (n + 2 * BORDER)) - 1
  {
    var m := n + 2 * BORDER;
    var q := (IMAGE_SIZE + 1) / m;
    var c := i + BORDER;
    QuotientBounds(IMAGE_SIZE + 1, m);
    assert q * m == IMAGE_SIZE + 1;
    assert c * IMAGE_SIZE == c * (q * m) - c == (c * q) * m - c;
    QuotientAtMost(c * IMAGE_SIZE, m, c * q - 1);
    QuotientAtMost(c * IMAGE_SIZE, m, c * q - 2);
    assert (c * q - 2 + 1) * m == (c * q) * m - m;
  }

  lemma FourNarrowModulesFit(n: nat)
    ensures BORDER * (IMAGE_SIZE / (n + 2 * BORDER)) <= Lo(0, n)
  {
    var m := n + 2 * BORDER;
    var q := IMAGE_SIZE / m;
    QuotientBounds(IMAGE_SIZE, m);
    QuotientAtMost(BORDER * IMAGE_SIZE, m, BORDER * q - 1);
    assert BORDER * q * m == BORDER * (q * m);
  }

  /** If all modules from 0 to k are wide, they take one pixel more each than the exact size allows. */
  lemma {:induction false} AllWide(n: nat, k: nat)
    requires k <= n && forall i | 0 <= i < k :: Width(i, n) == IMAGE_SIZE / (n + 2 * BORDER) + 1
    ensures Lo(k, n) == Lo(0, n) + k * (IMAGE_SIZE / (n + 2 * BORDER) + 1)
  {
    if k > 0 {
      AllWide(n, k - 1);
      assert Width(k - 1, n) == Lo(k, n) - Lo(k - 1, n);
    }
  }

  lemma SomeModuleIsNarrow(n: nat)
    requires 1 <= n && n + 2 * BORDER <= IMAGE_SIZE && (IMAGE_SIZE + 1) % (n + 2 * BORDER) != 0
    ensures exists i | 0 <= i < n :: Width(i, n) == IMAGE_SIZE / (n + 2 * BORDER)
  {
    var m := n + 2 * BORDER;
    var q := IMAGE_SIZE / m;
    hide Lo, Width;
    if forall i | 0 <= i < n :: Width(i, n) != q {
      forall i | 0 <= i < n
        ensures Width(i, n) == q + 1
      {
        WidthsAreEven(i, n);
      }
      AllWide(n, n);
      WideModulesOverflow(n, q);
      SmallSymbols(n);
    }
  }

  lemma SmallSymbols(n: nat)
    requires 1 <= n < 8
    ensures exists i | 0 <= i < n :: Width(i, n) == IMAGE_SIZE / (n + 2 * BORDER)
  {
    var i := if n == 2 then 1 else 0;
    assert Width(i, n) == IMAGE_SIZE / (n + 2 * BORDER);
  }

  lemma WideModulesOverflow(n: nat, q: nat)
    requires 1 <= n && n + 2 * BORDER <= IMAGE_SIZE && q == IMAGE_SIZE / (n + 2 * BORDER)
    requires (IMAGE_SIZE + 1) % (n + 2 * BORDER) != 0
    requires Lo(n, n) == Lo(0, n) + n * (q + 1)
    ensures n < 8
  {
    var m := n + 2 * BORDER;
    var d := (q + 1) * m - IMAGE_SIZE;
    QuotientBounds(IMAGE_SIZE, m);
    if d == 1 {
      assert (q + 1) * m == IMAGE_SIZE + 1;
      MultiplesLeaveNothing(q + 1, m);
      assert false;
    }
    QuotientBounds((n + BORDER) * IMAGE_SIZE, m);
    QuotientBounds(BORDER * IMAGE_SIZE, m);
    TooWideToFit(n, m, q + 1, d, Lo(0, n));
  }

  lemma TooWideToFit(n: nat, m: nat, w: nat, d: nat, start: nat)
    requires m == n + 2 * BORDER && w * m == IMAGE_SIZE + d && d >= 2
    requires (start + n * w) * m <= (n + BORDER) * IMAGE_SIZE && (start + 1) * m > BORDER * IMAGE_SIZE
    ensures n < 8
  {
    assert (start + n * w) * m == start * m + n * (w * m);
    assert n * (w * m) == n * IMAGE_SIZE + n * d;
    assert n * d >= n * 2;
  }

  lemma MultiplesLeaveNothing(a: nat, m: nat)
    requires m > 0
    ensures (a * m) % m == 0
  {
    var p := a * m;
    QuotientAtMost(p, m, a);
    QuotientAtMost(p, m, a - 1);
    assert p < (a + 1) * m;
    assert p == p / m * m + p % m;
  }

  /** A standard symbol has one module more than a multiple of four, so the cofactor does too, which leaves few cases. */
  lemma OnlyOneStandardSizeDivides(version: nat, q: nat)
    requires 1 <= version <= 40 && q * (25 + 4 * version) == IMAGE_SIZE + 1
    ensures version == 4
  {
    var r := 256 - 6 * q - q * version;
    assert q == 4 * r + 1;
    assert 5 < q < 36;
    assert r == 2 || r == 3 || r == 4 || r == 5 || r == 6 || r == 7 || r == 8;
    assert q == 9 || q == 13 || q == 17 || q == 21 || q == 25 || q == 29 || q == 33;
    if q == 9 {} else if q == 13 {} else if q == 17 {} else if q == 21 {} else if q == 25 {} else if q == 29 {} else {}
  }

  /** Of the forty standard symbol sizes, only the one with 33 modules falls short. */
  lemma OnlyVersionFourFallsShort(version: nat)
    requires 1 <= version <= 40
    ensures QuietZoneHolds(17 + 4 * version) <==> version != 4
  {
    hide QuietZoneHolds;
    var m := 25 + 4 * version;
    QuietZoneHoldsIff(17 + 4 * version);
    if (IMAGE_SIZE + 1) % m == 0 {
      QuotientBounds(IMAGE_SIZE + 1, m);
      OnlyOneStandardSizeDivides(version, (IMAGE_SIZE + 1) / m);
    }
  }

  // ---------------------------------------------------------------------------
  // Wrapping the product name
  // ---------------------------------------------------------------------------

  function Joined(lines: seq<string>): string {
    if lines == [] then "" else lines[0] + Joined(lines[1..])
  }

  predicate Fits(width: string -> int, maximum: int, line: string) {
    line != "" && width(line) <= maximum
  }

  /** A break is only made where the next character no longer fits. */
  predicate BreaksLate(width: string -> int, maximum: int, lines: seq<string>) {
    forall i | 0 < i < |lines| :: lines[i] != "" && width(lines[i - 1] + lines[i][..1]) > maximum
  }

  /** Text is at least as wide as any piece of it. */
  ghost predicate Monotone(width: string -> int) {
    forall a, b, c :: width(b) <= width(a + b + c)
  }

  method WrapProductName(width: string -> int, name: string, maximum: int) returns (r: Result<seq<string>, QrError>)
    ensures r.Ok? ==>
              && Joined(r.value) == name && (forall line | line in r.value :: Fits(width, maximum, line))
              && BreaksLate(width, maximum, r.value)
    ensures r.Err? ==> exists c | c in name :: width([c]) > maximum
    ensures r.Ok? && Monotone(width) ==> forall c | c in name :: width([c]) <= maximum
  {
    var lines: seq<string> := [];
    var current := "";
    for i := 0 to |name|
      invariant Joined(lines + [current]) == name[..i]
      invariant forall line | line in lines :: Fits(width, maximum, line)
      invariant current == "" ==> lines == [] && i == 0
      invariant current != "" ==> Fits(width, maximum, current) && BreaksLate(width, maximum, lines + [current])
    {
      ghost var before := lines + [current];
      var c := name[i];
      var candidate := current + [c];
      assert name[..i + 1] == name[..i] + [c];
      JoinedLast(lines, current);
      if current != "" && width(candidate) > maximum {
        lines := lines + [current];
        current := [c];
        JoinedLast(before, current);
        assert (lines + [current])[|lines|][..1] == [c];
      } else {
        assert current == "" || candidate[..1] == before[|lines|][..1];
        current := candidate;
        JoinedLast(lines, candidate);
        assert forall k | 0 <= k < |lines| :: (lines + [current])[k] == before[k];
      }
      if width(current) > maximum {
        assert current == [c] && c in name;
        return Err(CharacterTooWide);
      }
    }
    assert name[..|name|] == name;
    if current != "" {
      lines := lines + [current];
    }
    if Monotone(width) {
      forall c | c in name
        ensures width([c]) <= maximum
      {
        FittingLinesHaveFittingCharacters(width, maximum, lines, c);
      }
    }
    return Ok(lines);
  }

  lemma {:induction false} JoinedLast(lines: seq<string>, last: string)
    ensures Joined(lines + [last]) == Joined(lines) + last
  {
    if lines == [] {
      assert [last][1..] == [];
    } else {
      assert (lines + [last])[1..] == lines[1..] + [last];
      JoinedLast(lines[1..], last);
    }
  }

  lemma {:induction false} FittingLinesHaveFittingCharacters(
    width: string -> int, maximum: int, lines: seq<string>, c: char)
    requires Monotone(width) && forall line | line in lines :: Fits(width, maximum, line)
    requires c in Joined(lines)
    ensures width([c]) <= maximum
  {
    if c in lines[0] {
      var i :| 0 <= i < |lines[0]| && lines[0][i] == c;
      assert lines[0] == lines[0][..i] + [c] + lines[0][i + 1..];
      assert lines[0] in lines;
    } else {
      FittingLinesHaveFittingCharacters(width, maximum, lines[1..], c);
    }
  }

  lemma PieceIsNoWider(width: string -> int, piece: string, whole: string, at: nat)
    requires Monotone(width) && at + |piece| <= |whole| && whole[at..at + |piece|] == piece
    ensures width(piece) <= width(whole)
  {
    assert whole == whole[..at] + piece + whole[at + |piece|..];
  }

  predicate IsSuffix(a: string, b: string) {
    |a| <= |b| && b[|b| - |a|..] == a
  }

  /** Breaking late is best: no way to break the same name into fitting lines needs fewer of them. */
  lemma {:induction false} FewestLines(width: string -> int, maximum: int, lines: seq<string>, other: seq<string>)
    requires Monotone(width) && BreaksLate(width, maximum, lines) && (forall line | line in lines :: line != "")
    requires forall line | line in other :: Fits(width, maximum, line)
    requires IsSuffix(Joined(lines), Joined(other))
    ensures |lines| <= |other|
  {
    if lines != [] {
      assert lines[0] in lines && Joined(lines) != "" && other != [] && other[0] in other;
      var rest, otherRest := Joined(lines[1..]), Joined(other[1..]);
      if |rest| > |otherRest| {
        var skipped := |Joined(other)| - |Joined(lines)|;
        assert lines[1] in lines && Joined(lines[1..])[0] == lines[1][0];
        var overlap := lines[0] + lines[1][..1];
        assert overlap <= Joined(lines);
        PieceIsNoWider(width, overlap, other[0], skipped);
      }
      assert IsSuffix(rest, otherRest) by {
        assert rest == Joined(lines)[|lines[0]|..] && otherRest == Joined(other)[|other[0]|..];
      }
      FewestLines(width, maximum, lines[1..], other[1..]);
    }
  }
}
