/**
 The area of interest: MakeAround's clipped 3x3 neighbourhood of a cell, on a grid of any width and height.
 */
module Around {
  import opened SectorIndex

  /** st_SECTOR: the first `count` of nine positions are in use. */
  datatype Area = Area(count: nat, map9: seq<Cell>)

  predicate IsValidSector(x: int, y: int, width: nat, height: nat) {
    0 <= x < width && 0 <= y < height
  }

  predicate Near(a: Cell, x: int, y: int) {
    -1 <= a.x - x <= 1 && -1 <= a.y - y <= 1
  }

  predicate InGrid(c: Cell, width: nat, height: nat) {
    c.x < width && c.y < height
  }

  /** How many of v-1, v, v+1 lie in [0, n). */
  function Extent(v: int, n: nat): nat {
    (if 0 <= v - 1 < n then 1 else 0) + (if 0 <= v < n then 1 else 0) + (if 0 <= v + 1 < n then 1 else 0)
  }

  /** How many of v-1 .. v-1+k-1 lie in [0, n). */
  function ExtentUpTo(v: int, n: nat, k: nat): nat {
    if k == 0 then 0 else ExtentUpTo(v, n, k - 1) + (if 0 <= v - 2 + k < n then 1 else 0)
  }

  lemma ExtentUpToThree(v: int, n: nat)
    ensures ExtentUpTo(v, n, 3) == Extent(v, n)
  {
    assert ExtentUpTo(v, n, 1) == if 0 <= v - 1 < n then 1 else 0;
    assert ExtentUpTo(v, n, 2) == ExtentUpTo(v, n, 1) + if 0 <= v < n then 1 else 0;
  }

  predicate Distinct<T(==)>(s: seq<T>) {
    forall i, j :: 0 <= i < j < |s| ==> s[i] != s[j]
  }

  lemma DistinctSnoc<T>(s: seq<T>, x: T)
    requires Distinct(s) && x !in s
    ensures Distinct(s + [x])
  {
  }

  /** The cells of the grid that the scan has passed when it stands at row `i` and column `j`. */
  predicate Passed(c: Cell, x: int, y: int, i: nat, j: nat) {
    Near(c, x, y) && (c.y < y - 1 + i || (c.y == y - 1 + i && c.x < x - 1 + j))
  }

  /** Each cell of the clipped neighbourhood once, and nothing else. */
  ghost predicate Covers(a: Area, x: nat, y: nat, width: nat, height: nat) {
    && a.count <= |a.map9| == 9
    && Distinct(a.map9[..a.count])
    && (forall c :: c in a.map9[..a.count] <==> InGrid(c, width, height) && Near(c, x, y))
  }

  method MakeAround(x: nat, y: nat, width: nat, height: nat) returns (a: Area)
    ensures Covers(a, x, y, width, height)
    ensures a.count == Extent(x, width) * Extent(y, height)
  {
    var cells := [];
    for i := 0 to 3
      invariant |cells| == ExtentUpTo(y, height, i) * Extent(x, width)
      invariant |cells| <= 3 * i
      invariant Distinct(cells)
      invariant forall c :: c in cells <==> InGrid(c, width, height) && Passed(c, x, y, i, 0)
    {
      for j := 0 to 3
        invariant |cells| == ExtentUpTo(y, height, i) * Extent(x, width)
                             + (if IsValidSector(0, y - 1 + i, 1, height) then ExtentUpTo(x, width, j) else 0)
        invariant |cells| <= 3 * i + j
        invariant Distinct(cells)
        invariant forall c :: c in cells <==> InGrid(c, width, height) && Passed(c, x, y, i, j)
      {
        if IsValidSector(x - 1 + j, y - 1 + i, width, height) {
          var c := Cell(x - 1 + j, y - 1 + i);
          DistinctSnoc(cells, c);
          cells := cells + [c];
        }
      }
      ExtentUpToThree(x, width);
    }
    ExtentUpToThree(y, height);
    a := Area(|cells|, cells + seq(9 - |cells|, _ => Cell(0, 0)));
    assert a.map9[..a.count] == cells;
  }

}
