/** The linear layout shared by the chunk array of the world and the voxel
    array of a chunk: cell (x, y, z) of a w x h x d box is stored at
    x + z*w + y*(w*d), so x varies fastest, then z, then y. */
module Linear {

  function Index(x: int, y: int, z: int, w: int, d: int): int
  {
    x + z * w + y * (w * d)
  }

  predicate InBox(x: int, y: int, z: int, w: int, h: int, d: int)
  {
    0 <= x < w && 0 <= y < h && 0 <= z < d
  }

  /** The cell stored at index i: the inverse of Index. */
  function Cell(i: int, w: int, d: int): (int, int, int)
    requires 0 <= i && 0 < w && 0 < d
  {
    (i % w, (i / w) / d, (i / w) % d)
  }

  /** n / m and n % m are the unique quotient and remainder. */
  lemma DivModUnique(n: int, m: int, q: int, r: int)
    requires 0 < m && 0 <= r < m && n == q * m + r
    ensures n / m == q && n % m == r
  {
    var q0, r0 := n / m, n % m;
    assert n == q0 * m + r0;
    if q0 < q {
      MulMonotone(m, q0 + 1, q);
      assert false;
    } else if q < q0 {
      MulMonotone(m, q + 1, q0);
      assert false;
    }
  }

  lemma MulMonotone(m: int, a: int, b: int)
    requires 0 <= m && a <= b
    ensures a * m <= b * m
  {
    assert b * m - a * m == (b - a) * m;
  }

  /** Every cell of the box lands inside [0, w*d*h). */
  lemma {:induction false} IndexInRange(x: int, y: int, z: int, w: int, h: int, d: int)
    requires InBox(x, y, z, w, h, d)
    ensures 0 <= Index(x, y, z, w, d) < w * d * h
  {
    MulMonotone(w, z, d - 1);
    MulMonotone(w * d, y, h - 1);
    assert (d - 1) * w == w * d - w;
    assert (h - 1) * (w * d) == w * d * h - w * d;
    assert 0 <= z * w && 0 <= y * (w * d) by {
      MulMonotone(w, 0, z);
      MulMonotone(w * d, 0, y);
    }
  }

  /** Cell undoes Index on the box. */
  lemma {:induction false} CellOfIndex(x: int, y: int, z: int, w: int, h: int, d: int)
    requires InBox(x, y, z, w, h, d)
    ensures Index(x, y, z, w, d) >= 0
    ensures Cell(Index(x, y, z, w, d), w, d) == (x, y, z)
  {
    IndexInRange(x, y, z, w, h, d);
    var i := Index(x, y, z, w, d);
    var zy := z + y * d;
    assert i == zy * w + x by {
      assert zy * w == z * w + (y * d) * w;
      assert (y * d) * w == y * (w * d);
    }
    DivModUnique(i, w, zy, x);
    DivModUnique(zy, d, y, z);
  }

  /** Index undoes Cell on [0, w*d*h), and the cell is in the box. */
  lemma {:induction false} IndexOfCell(i: int, w: int, h: int, d: int)
    requires 0 < w && 0 < d && 0 < h && 0 <= i < w * d * h
    ensures InBox(Cell(i, w, d).0, Cell(i, w, d).1, Cell(i, w, d).2, w, h, d)
    ensures Index(Cell(i, w, d).0, Cell(i, w, d).1, Cell(i, w, d).2, w, d) == i
  {
    var q := i / w;
    var y, z := q / d, q % d;
    assert i == q * w + i % w;
    assert q == y * d + z;
    assert i == (i % w) + z * w + y * (w * d) by {
      assert q * w == (y * d + z) * w == y * (w * d) + z * w;
    }
    if q >= d * h {
      MulMonotone(w, d * h, q);
      assert false;
    }
    if y >= h {
      MulMonotone(d, h, y);
      assert false;
    }
    assert 0 <= q by {
      if q < 0 {
        MulMonotone(w, q, -1);
        assert false;
      }
    }
  }

  /** Distinct cells of the box have distinct indices. */
  lemma IndexInjective(x: int, y: int, z: int, x': int, y': int, z': int, w: int, h: int, d: int)
    requires InBox(x, y, z, w, h, d) && InBox(x', y', z', w, h, d)
    requires Index(x, y, z, w, d) == Index(x', y', z', w, d)
    ensures x == x' && y == y' && z == z'
  {
    CellOfIndex(x, y, z, w, h, d);
    CellOfIndex(x', y', z', w, h, d);
  }
}
