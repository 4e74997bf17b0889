/**
  Page/limit arithmetic shared by the controller and the repository: the
  clamps, the offset window and the page count, together with the guarantee
  that walking the pages in turn yields every row exactly once.
 */
module Pagination {

  /** The largest page size the endpoint serves. */
  const MaxLimit: int := 100

  function Min(a: int, b: int): int {
    if a <= b then a else b
  }

  function Max(a: int, b: int): int {
    if a >= b then a else b
  }

  /** `max(1, page)`: pages start at 1; zero or negative pages become 1 and
      there is no upper bound. */
  function ClampPage(page: int): (p: int)
    ensures p >= 1
    ensures page >= 1 ==> p == page
    ensures page < 1 ==> p == 1
  {
    Max(1, page)
  }

  /** The repository's `min(max(1, limit), 100)`. A non-numeric `limit`
      reaches here as 0 and so becomes 1, not the default 20. */
  function ClampLimit(limit: int): (l: int)
    ensures 1 <= l <= MaxLimit
    ensures 1 <= limit <= MaxLimit ==> l == limit
    ensures limit < 1 ==> l == 1
    ensures limit > MaxLimit ==> l == MaxLimit
  {
    Min(Max(1, limit), MaxLimit)
  }

  /** The controller's own `max(1, min(100, limit))`, used for `meta.limit`
      and the page count: it always agrees with the limit the repository
      applies. */
  function SafeLimit(limit: int): (l: int)
    ensures l == ClampLimit(limit)
  {
    Max(1, Min(MaxLimit, limit))
  }

  /** Clamping twice changes nothing, so the repository re-clamping the
      controller's values is harmless. */
  lemma ClampsIdempotent(page: int, limit: int)
    ensures ClampPage(ClampPage(page)) == ClampPage(page)
    ensures ClampLimit(ClampLimit(limit)) == ClampLimit(limit)
  {
  }

  /** The number of rows skipped before page `page`. */
  function Offset(page: int, limit: int): nat
    requires page >= 1 && limit >= 1
  {
    (page - 1) * limit
  }

  /** Page `page` ends where page `page + 1` begins. */
  lemma OffsetStep(page: int, limit: int)
    requires page >= 1 && limit >= 1
    ensures Offset(page, limit) + limit == Offset(page + 1, limit)
  {
  }

  /** At most `limit` rows of `s` starting at `offset`; empty past the end. */
  function Window<T>(s: seq<T>, offset: nat, limit: nat): (w: seq<T>)
    ensures |w| == Min(limit, Max(0, |s| - offset))
    ensures forall i :: 0 <= i < |w| ==> w[i] == s[offset + i]
    ensures forall x :: x in w ==> x in s
  {
    if offset >= |s| then [] else s[offset..Min(offset + limit, |s|)]
  }

  /** The rows before `offset` followed by the window at `offset` are the
      rows before `offset + limit`. */
  lemma WindowExtendsPrefix<T>(s: seq<T>, offset: nat, limit: nat)
    ensures s[..Min(offset, |s|)] + Window(s, offset, limit) == s[..Min(offset + limit, |s|)]
  {
    if offset < |s| {
      assert s[..offset] + s[offset..Min(offset + limit, |s|)] == s[..Min(offset + limit, |s|)];
    }
  }

  /** The rows of page `page` (1-based) at `limit` rows per page. */
  function PageWindow<T>(s: seq<T>, page: int, limit: int): seq<T>
    requires page >= 1 && limit >= 1
  {
    Window(s, Offset(page, limit), limit)
  }

  /** `pages` is the fewest pages of `limit` rows that hold `total` rows:
      none for no rows, otherwise all but the last page are full. */
  predicate FewestPages(total: nat, limit: int, pages: nat) {
    && (total == 0 ==> pages == 0)
    && (total > 0 ==> (pages - 1) * limit < total <= pages * limit)
  }

  /** `ceil(total / limit)`: the number of pages the listing reports. */
  function CeilDiv(total: nat, limit: int): (pages: nat)
    requires limit >= 1
    ensures FewestPages(total, limit, pages)
  {
    var n := total + limit - 1;
    var q := n / limit;
    assert n == q * limit + n % limit;
    assert q * limit >= total;
    assert (q - 1) * limit == q * limit - limit;
    q
  }

  /** Pages 1..k of `s` laid end to end. */
  function FirstPages<T>(s: seq<T>, limit: int, k: nat): seq<T>
    requires limit >= 1
  {
    if k == 0 then [] else FirstPages(s, limit, k - 1) + PageWindow(s, k, limit)
  }

  /** Pages 1..k together are exactly the rows before offset `k * limit`:
      no row skipped, none repeated, order kept. */
  lemma {:induction false} FirstPagesArePrefix<T>(s: seq<T>, limit: int, k: nat)
    requires limit >= 1
    ensures FirstPages(s, limit, k) == s[..Min(Offset(k + 1, limit), |s|)]
  {
    if k > 0 {
      FirstPagesArePrefix(s, limit, k - 1);
      OffsetStep(k, limit);
      WindowExtendsPrefix(s, Offset(k, limit), limit);
    }
  }

  /** Walking pages 1..ceil(|s|/limit) yields the whole sequence. */
  lemma AllPagesYieldEverything<T>(s: seq<T>, limit: int)
    requires limit >= 1
    ensures FirstPages(s, limit, CeilDiv(|s|, limit)) == s
  {
    var k := CeilDiv(|s|, limit);
    FirstPagesArePrefix(s, limit, k);
    assert Offset(k + 1, limit) == k * limit;
    assert s[..|s|] == s;
  }

  /** A page beyond the last one is empty; the last page holds the
      remainder `total - limit * (pages - 1)`. */
  lemma PagesBeyondTheEnd<T>(s: seq<T>, page: int, limit: int)
    requires page >= 1 && limit >= 1
    ensures page > CeilDiv(|s|, limit) ==> PageWindow(s, page, limit) == []
    ensures |s| > 0 && page == CeilDiv(|s|, limit) ==>
      |PageWindow(s, page, limit)| == |s| - limit * (page - 1)
  {
    var k := CeilDiv(|s|, limit);
    if page > k {
      assert (page - 1) * limit >= k * limit;
    }
  }
}
