/** Block sizes and alignment in the server's buddy allocator.

    Order i holds blocks of Size(i) bytes (buddy_size[i] in the server), and
    every address is an offset from the start of its area. */
module BuddySizes {
  import opened Basics

  /** buddy_size[0] */
  const BASE: nat := 65536

  function Size(i: nat): (s: nat)
    ensures s >= BASE
  {
    if i == 0 then BASE else 2 * Size(i - 1)
  }

  /** The program's table of sizes, and SINGLE_AREA_SIZE above it */
  lemma ShippedSizes()
    ensures Size(0) == 65536 && Size(1) == 131072 && Size(2) == 262144 && Size(3) == 524288
    ensures Size(4) == 1048576 && Size(5) == 2097152
  {
    assert Size(2) == 262144;
    assert Size(4) == 1048576;
  }

  predicate Aligned(off: nat, i: nat) {
    off % Size(i) == 0
  }

  lemma SizeMonotone(i: nat, j: nat)
    requires i <= j
    ensures Size(i) <= Size(j)
    ensures i < j ==> 2 * Size(i) <= Size(j)
  {
    if i < j {
      SizeMonotone(i, j - 1);
    }
  }

  lemma MultipleOf(q: nat, s: nat)
    requires s > 0
    ensures (q * s) % s == 0
  {
    var d := (q * s) / s;
    if d < q {
      MulMonotone(d, q, s);
    } else if q < d {
      MulMonotone(q, d, s);
    }
  }

  lemma Quotient(a: nat, s: nat) returns (q: nat)
    requires s > 0 && a % s == 0
    ensures a == q * s
  {
    q := a / s;
  }

  lemma NeverHalfWay(p: nat, q: nat, s: nat)
    requires s > 0
    ensures p * (2 * s) != q * (2 * s) + s
  {
    if p < q {
      MulMonotone(p, q, 2 * s);
    } else if q < p {
      MulMonotone(q, p, 2 * s);
    }
  }

  /** Halving an aligned block: both halves are aligned one order down, and
      only the left half is aligned at the parent's order. */
  lemma Halves(a: nat, i: nat)
    requires Aligned(a, i + 1)
    ensures Aligned(a, i)
    ensures Aligned(a + Size(i), i)
    ensures !Aligned(a + Size(i), i + 1)
  {
    var s := Size(i);
    var q := Quotient(a, 2 * s);
    MultipleOf(2 * q, s);
    MultipleOf(2 * q + 1, s);
    assert a == (2 * q) * s;
    assert a + s == (2 * q + 1) * s;
    if Aligned(a + s, i + 1) {
      var p := Quotient(a + s, 2 * s);
      NeverHalfWay(p, q, s);
    }
  }

  /** A block that is not aligned at the next order is a right half. */
  lemma RightHalf(a: nat, i: nat)
    requires Aligned(a, i) && !Aligned(a, i + 1)
    ensures a >= Size(i) && Aligned(a - Size(i), i + 1)
  {
    var s := Size(i);
    var q := Quotient(a, s);
    var h := q / 2;
    MultipleOf(h, 2 * s);
    assert h * (2 * s) == (2 * h) * s;
    assert q == 2 * h || q == 2 * h + 1;
    assert (2 * h + 1) * s == (2 * h) * s + s;
  }

  /** Two aligned ranges either do not meet or the smaller lies in the larger. */
  lemma NestedOrDisjoint(a: nat, i: nat, b: nat, j: nat)
    requires i <= j && Aligned(a, i) && Aligned(b, j)
    ensures || a + Size(i) <= b
            || b + Size(j) <= a
            || (b <= a && a + Size(i) <= b + Size(j))
    decreases j - i
  {
    if i == j {
      var p := Quotient(a, Size(i));
      var q := Quotient(b, Size(i));
      if p < q {
        MulMonotone(p, q, Size(i));
      } else if q < p {
        MulMonotone(q, p, Size(i));
      }
    } else if Aligned(a, i + 1) {
      NestedOrDisjoint(a, i + 1, b, j);
    } else {
      RightHalf(a, i);
      NestedOrDisjoint(a - Size(i), i + 1, b, j);
    }
  }
}
