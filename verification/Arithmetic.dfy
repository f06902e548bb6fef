/** Division and remainder by a variable, which the solver does not do on its own. */
module Arithmetic {

  lemma SmallMultiple(m: int, d: int)
    requires m > 0 && -m < m * d < m
    ensures d == 0
  {
    assert d >= 1 ==> m * d >= m;
    assert d <= -1 ==> m * d <= -m;
  }

  lemma DivideUnique(n: nat, page: nat, q: nat, r: nat)
    requires page > 0 && r < page && n == page * q + r
    ensures n / page == q && n % page == r
  {
    SmallMultiple(page, n / page - q);
  }

  lemma Product(a: nat, b: nat)
    ensures a * b >= 0
  {
  }

  lemma ModuloUnique(x: int, m: nat, k: int)
    requires m > 0 && 0 <= x < m
    ensures (x + m * k) % m == x
  {
    var n := x + m * k;
    SmallMultiple(m, n / m - k);
  }

  lemma ModuloSum(l: int, p: int, q: int, m: nat)
    requires m > 0 && 0 <= p + q < m
    ensures (l + q + (p - l) % m) % m == p + q
  {
    var k := (p - l) / m;
    assert (p - l) % m == p - l - m * k;
    assert l + q + (p - l) % m == (p + q) + m * (-k);
    ModuloUnique(p + q, m, -k);
  }

  lemma DivideSum(m: nat, x: nat, page: nat)
    requires page > 0 && m % page == 0
    ensures (m + x) / page == m / page + x / page && (m + x) % page == x % page
  {
    var k := m / page;
    assert m == page * k;
    var q, r := x / page, x % page;
    assert m + x == page * (k + q) + r;
    DivideUnique(m + x, page, k + q, r);
  }

  lemma QuotientBelow(n: nat, page: nat)
    requires page > 0
    ensures n / page <= n
  {
    var q := n / page;
    Product(page - 1, q);
    assert n - n % page == page * q == q + (page - 1) * q;
  }

  lemma DivideBack(m: nat, x: nat, page: nat)
    requires page > 0 && m % page == 0
    ensures (m / page + x / page) * page + x % page == m + x
  {
    assert m == page * (m / page) && x == page * (x / page) + x % page;
  }

  /** Multiples of `size` below a multiple of `size` leave room for one more. */
  lemma RoomForOne(size: nat, m: nat, k: int)
    requires size > 0 && size * k < size * m
    ensures size * k + size <= size * m
  {
    assert size * (m - k) > 0;
    assert m - k >= 1;
    assert size * (m - k) >= size;
  }

  /** Page numbers compare like addresses, where the upper one starts a page. */
  lemma PageBelow(a: nat, n: nat, page: nat)
    requires page > 0 && n % page == 0
    ensures a / page < n / page <==> a < n
  {
    MultiplesOrder(page, a / page, n / page, a % page);
  }

  lemma MultiplesOrder(page: nat, q: nat, m: nat, r: nat)
    requires r < page
    ensures q < m <==> page * q + r < page * m
  {
    if q < m {
      Product(page, m - q - 1);
      assert page * (m - q - 1) == page * m - page * q - page;
    } else {
      Product(page, q - m);
      assert page * (q - m) == page * q - page * m;
    }
  }
}
