/** Page arithmetic shared by the book listing endpoints. */
module Pagination {

  /** `Math.ceil(x)` */
  function Ceil(x: real): (r: int)
    ensures r as real - 1.0 < x <= r as real
  {
    -((-x).Floor)
  }

  /** `(page - 1) * limit`: how many books the pages before `page` hold. */
  function Skip(page: int, limit: int): int {
    (page - 1) * limit
  }

  /**
   * `Math.ceil(totalBooks / limit)`. For a positive limit it is the least
   * number of pages of `limit` books that hold all `total` books.
   */
  function TotalPages(total: nat, limit: int): (r: int)
    requires limit != 0
    ensures limit > 0 ==> r >= 0 && (r - 1) * limit < total <= r * limit
  {
    var r := Ceil(total as real / limit as real);
    if limit > 0 then
      CeilDivBounds(total, limit);
      r
    else r
  }

  lemma CeilDivBounds(total: nat, limit: int)
    requires limit > 0
    ensures var r := Ceil(total as real / limit as real);
      r >= 0 && (r - 1) * limit < total <= r * limit
  {
    var t, l := total as real, limit as real;
    var q := t / l;
    var r := Ceil(q);
    DivMul(t, l);
    CeilScaled(t, l, q, r);
    IntRealMul(r - 1, limit);
    IntRealMul(r, limit);
  }

  /** From `r - 1 < q <= r` and `q * l == t`: `(r - 1) * l < t <= r * l`. */
  lemma CeilScaled(t: real, l: real, q: real, r: int)
    requires l > 0.0 && q * l == t && r as real - 1.0 < q <= r as real
    ensures ((r - 1) as real) * l < t <= (r as real) * l
  {
    RealMulMono(r as real - 1.0, q, l);
    RealMulMono(q, r as real, l);
  }

  lemma DivMul(t: real, l: real)
    requires t >= 0.0 && l > 0.0
    ensures (t / l) * l == t
    ensures t / l >= 0.0
  {
  }

  lemma IntRealMul(a: int, b: int)
    ensures (a * b) as real == a as real * b as real
  {
  }

  /** No books, no pages. */
  lemma NoBooksNoPages(limit: int)
    requires limit > 0
    ensures TotalPages(0, limit) == 0
  {
  }

  /**
   * Pages 1..TotalPages cover every book exactly once: the book at position
   * `k` of the ordered catalog is on page `k / limit + 1`, which is one of
   * those pages, and on no other page.
   */
  lemma {:induction false} EveryBookOnOnePage(total: nat, limit: int, k: nat)
    requires limit > 0 && k < total
    ensures var p := k / limit + 1;
      && 1 <= p <= TotalPages(total, limit)
      && Skip(p, limit) <= k < Skip(p, limit) + limit
      && forall p' :: Skip(p', limit) <= k < Skip(p', limit) + limit ==> p' == p
  {
    var p := k / limit + 1;
    var tp := TotalPages(total, limit);
    assert Skip(p, limit) == (k / limit) * limit;
    assert (k / limit) * limit <= k < (k / limit) * limit + limit;
    MulCancel(tp, k / limit, limit);
    forall p' | Skip(p', limit) <= k < Skip(p', limit) + limit ensures p' == p {
      MulCancel(p, p' - 1, limit);
      MulCancel(p', p - 1, limit);
    }
  }

  /**
   * For a page from 1 and a positive limit, the page starts at or after
   * position 0, ends `limit` positions later, and starts inside the catalog
   * exactly when it is one of pages 1..TotalPages.
   */
  lemma PageStart(total: nat, limit: int, page: int)
    requires limit >= 1 && page >= 1
    ensures 0 <= Skip(page, limit)
    ensures Skip(page, limit) + limit == page * limit
    ensures Skip(page, limit) < total <==> page <= TotalPages(total, limit)
  {
    var tp := TotalPages(total, limit);
    MulMono(0, page - 1, limit);
    if page <= tp {
      MulMono(page - 1, tp - 1, limit);
    } else {
      MulMono(tp, page - 1, limit);
    }
  }

  lemma RealMulMono(a: real, b: real, c: real)
    requires c > 0.0
    ensures a < b ==> a * c < b * c
    ensures a <= b ==> a * c <= b * c
  {
  }

  lemma MulCancel(a: int, b: int, c: int)
    requires c > 0
    ensures a * c > b * c ==> a > b
  {
    if a <= b {
      MulMono(a, b, c);
    }
  }

  lemma MulMono(a: int, b: int, c: int)
    requires a <= b && c > 0
    ensures a * c <= b * c
  {
  }
}
