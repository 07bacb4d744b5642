/** The page count of getEventsAttendedByUser, computed from the first
    page's envelope exactly as Go evaluates the expression: `*` and `/` bind
    left to right, and `/` truncates toward zero. Integers are unbounded here. */
module Pagination {

  /** Go's integer division: the quotient truncated toward zero. */
  function GoQuo(a: int, b: int): (q: int)
    requires b != 0
    ensures (a >= 0) == (b > 0) ==> q >= 0
    ensures (a >= 0) != (b > 0) ==> q <= 0
  {
    var x: nat := if a < 0 then -a else a;
    var y: nat := if b < 0 then -b else b;
    DivNat(x, y);
    var m := x / y;
    if (a < 0) != (b < 0) then -m else m
  }

  lemma DivNat(x: nat, y: nat)
    requires y > 0
    ensures x / y >= 0
  {
    var m := x / y;
    assert m * y + x % y == x && 0 <= x % y < y;
    if m < 0 {
      MulSign(y, m);
    }
  }

  /** The relation that defines Go's `/`: the remainder a - q*b is zero or
      has the dividend's sign, and is smaller in magnitude than the divisor. */
  lemma GoQuoTruncates(a: int, b: int)
    requires b != 0
    ensures var q := GoQuo(a, b); var r := a - q * b;
      (r == 0 || (r > 0) == (a > 0)) && (if r < 0 then -r else r) < (if b < 0 then -b else b)
  {
    var x: nat := if a < 0 then -a else a;
    var y: nat := if b < 0 then -b else b;
    var m, rem := x / y, x % y;
    assert x == m * y + rem && 0 <= rem < y;
    var q := GoQuo(a, b);
    assert q == if (a < 0) != (b < 0) then -m else m;
    if a >= 0 {
      assert q * b == m * y;
      assert a - q * b == rem;
    } else {
      assert q * b == -(m * y);
      assert a - q * b == -rem;
    }
  }

  /** The page-count computation as written. */
  function PageCount(total: int, itemsPerPage: int): int
    requires itemsPerPage != 0
  {
    if total != GoQuo(itemsPerPage * total, itemsPerPage) then
      GoQuo(total, itemsPerPage)
    else
      GoQuo(total, itemsPerPage) + 1
  }

  lemma MulDivCancel(k: nat, n: nat)
    requires n > 0
    ensures (n * k) / n == k
  {
    var q, r := (n * k) / n, (n * k) % n;
    assert n * k == n * q + r && 0 <= r < n;
    assert n * (k - q) == r by {
      assert n * k - n * q == n * (k - q);
    }
    MulSign(n, k - q);
  }

  lemma MulSign(n: nat, d: int)
    requires n > 0
    ensures d >= 1 ==> n * d >= n
    ensures d <= -1 ==> n * d + n <= 0
  {
    if d >= 1 {
      assert n * d == n * (d - 1) + n;
    } else if d <= -1 {
      assert n * d == n * (d + 1) - n;
    }
  }

  /** Multiplying and then dividing by the same non-zero divisor gives the
      dividend back, so the reconstruction test never fails. */
  lemma {:induction false} GuardNeverTaken(total: int, itemsPerPage: int)
    requires itemsPerPage != 0
    ensures GoQuo(itemsPerPage * total, itemsPerPage) == total
  {
    var a := if total < 0 then -total else total;
    var b := if itemsPerPage < 0 then -itemsPerPage else itemsPerPage;
    var p := itemsPerPage * total;
    assert (if p < 0 then -p else p) == b * a by {
      if total < 0 && itemsPerPage < 0 {
        assert p == b * a;
      } else if total < 0 {
        assert p == -(b * a);
      } else if itemsPerPage < 0 {
        assert p == -(b * a);
      }
    }
    MulDivCancel(a, b);
    assert (p < 0) == (b * a != 0 && ((total < 0) != (itemsPerPage < 0)));
  }

  /** The first branch is dead: the count is always one more than the
      truncated quotient. */
  lemma PageCountIsQuotientPlusOne(total: int, itemsPerPage: int)
    requires itemsPerPage != 0
    ensures PageCount(total, itemsPerPage) == GoQuo(total, itemsPerPage) + 1
  {
    GuardNeverTaken(total, itemsPerPage);
  }

  /** For a non-negative total and a positive page size the pages cover
      every item index: the last page starts at or before the total and
      ends after it. */
  lemma PageCountCovers(total: int, itemsPerPage: int)
    requires total >= 0 && itemsPerPage > 0
    ensures PageCount(total, itemsPerPage) == total / itemsPerPage + 1
    ensures PageCount(total, itemsPerPage) >= 1
    ensures (PageCount(total, itemsPerPage) - 1) * itemsPerPage <= total
    ensures total < PageCount(total, itemsPerPage) * itemsPerPage
  {
    PageCountIsQuotientPlusOne(total, itemsPerPage);
    var q := total / itemsPerPage;
    assert q * itemsPerPage + total % itemsPerPage == total;
    assert (q + 1) * itemsPerPage == q * itemsPerPage + itemsPerPage;
  }

  /** On an exact multiple the last requested page starts right at the
      total, so it holds no item: one surplus page is requested. */
  lemma SurplusPageOnExactMultiple(total: int, itemsPerPage: int)
    requires total >= 0 && itemsPerPage > 0
    ensures total % itemsPerPage == 0 <==> (PageCount(total, itemsPerPage) - 1) * itemsPerPage == total
  {
    PageCountCovers(total, itemsPerPage);
    var q := total / itemsPerPage;
    assert q * itemsPerPage + total % itemsPerPage == total;
  }

  /** Worked values: 25 items at 20 per page give 2 pages, 21 give 2, and
      40 give 3 (one of them empty). */
  lemma PageCountExamples()
    ensures PageCount(25, 20) == 2
    ensures PageCount(21, 20) == 2
    ensures PageCount(40, 20) == 3
    ensures PageCount(0, 20) == 1
  {
    PageCountIsQuotientPlusOne(25, 20);
    PageCountIsQuotientPlusOne(21, 20);
    PageCountIsQuotientPlusOne(40, 20);
    PageCountIsQuotientPlusOne(0, 20);
  }
}
