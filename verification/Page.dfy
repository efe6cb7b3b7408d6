/** Pagination over int64, and what the pages of a list add up to. */
module Page {
  import opened Arith
  import opened Int64

  const DEFAULT_PAGE_SIZE := 20
  const MAX_PAGE_SIZE := 1000

  datatype Param = Param(pageNo: int, pageSize: int)

  datatype Result<T> = Result(total: int, pages: int, list: seq<T>)

  function Normalize(p: Param): (r: Param)
    ensures 1 <= r.pageNo && 1 <= r.pageSize <= 1000
    ensures 1 <= p.pageNo ==> r.pageNo == p.pageNo
    ensures 1 <= p.pageSize <= 1000 ==> r.pageSize == p.pageSize
    ensures p.pageNo < 1 ==> r.pageNo == 1
    ensures p.pageSize <= 0 ==> r.pageSize == 20
    ensures p.pageSize > 1000 ==> r.pageSize == 1000
  {
    var no := if p.pageNo < 1 then 1 else p.pageNo;
    var size := if p.pageSize <= 0 then DEFAULT_PAGE_SIZE else p.pageSize;
    Param(no, if size > MAX_PAGE_SIZE then MAX_PAGE_SIZE else size)
  }

  /** The SQL OFFSET; the product wraps. */
  function Offset(p: Param): int {
    var n := Normalize(p);
    Wrap((n.pageNo - 1) * n.pageSize)
  }

  /** The SQL LIMIT. */
  function Limit(p: Param): int { Normalize(p).pageSize }

  function New<T>(list: seq<T>, total: int, pageSize: int): Result<T> {
    var size := if pageSize <= 0 then 1 else pageSize;
    var pages := Quo(total, size) + (if Rem(total, size) != 0 then 1 else 0);
    Result(total, pages, list)
  }

  /**
   * A result keeps the rows and the total it is given. Its page count is the total over the size,
   * sizes below 1 counting as 1, rounded up; for a negative total it is one above the quotient
   * rounded towards zero, or that quotient if it is exact.
   */
  lemma NewMeaning<T>(list: seq<T>, total: int, pageSize: int)
    ensures var r, size := New(list, total, pageSize), Max(pageSize, 1);
            && r.list == list
            && r.total == total
            && (total >= 0 ==> r.pages >= 0 && (r.pages - 1) * size < total <= r.pages * size)
            && (total < 0 ==> r.pages * size == total || (r.pages - 2) * size < total < (r.pages - 1) * size <= 0)
  {
    var size := Max(pageSize, 1);
    if total >= 0 {
      DivisionFacts(total, size);
    } else {
      DivisionFacts(-total, size);
      NegativePages(total, size, -total / size);
    }
  }

  lemma NegativePages(total: int, size: int, q: int)
    requires size >= 1 && q >= 0 && q * size <= -total < q * size + size
    ensures (-q) * size == -(q * size) && (-q - 1) * size == -(q * size) - size
  {}

  /** Map: apply fn to every element, keeping the totals. */
  method Map<S, T(0)>(r: Result<S>, fn: S -> T) returns (m: Result<T>)
    ensures m == Mapped(r, fn)
    ensures m.total == r.total && m.pages == r.pages && |m.list| == |r.list|
    ensures forall i | 0 <= i < |r.list| :: m.list[i] == fn(r.list[i])
  {
    var out := new T[|r.list|];
    for i := 0 to |r.list|
      invariant forall j | 0 <= j < i :: out[j] == fn(r.list[j])
    {
      out[i] := fn(r.list[i]);
    }
    m := Result(r.total, r.pages, out[..]);
  }

  function MapSeq<S, T>(s: seq<S>, fn: S -> T): seq<T> { seq(|s|, i requires 0 <= i < |s| => fn(s[i])) }

  function Mapped<S, T>(r: Result<S>, fn: S -> T): Result<T> { Result(r.total, r.pages, MapSeq(r.list, fn)) }

  // ----- what the data layer returns for a page

  /** The rows of `all` that OFFSET and LIMIT select. */
  function Rows<T>(all: seq<T>, p: Param): seq<T> {
    var off, lim := Offset(p), Limit(p);
    Slice(all, off, lim)
  }

  function Slice<T>(all: seq<T>, off: int, lim: int): seq<T> {
    if 0 <= off <= |all| && lim >= 0 then all[off..Min(off + lim, |all|)] else []
  }

  /** The number of pages New reports for the size that Normalize settles on. */
  function Pages(total: int, pageSize: int): int {
    New<int>([], total, Normalize(Param(1, pageSize)).pageSize).pages
  }

  /** The rows of pages 1 .. n, one after the other. */
  function FirstPages<T>(all: seq<T>, pageSize: int, n: nat): seq<T> {
    if n == 0 then [] else FirstPages(all, pageSize, n - 1) + Rows(all, Param(n, pageSize))
  }

  /** Pages is the total divided by the size, rounded up. */
  lemma PagesRoundsUp(total: int, pageSize: int)
    requires total >= 0
    ensures var size, n := Normalize(Param(1, pageSize)).pageSize, Pages(total, pageSize);
            n >= 0 && (n - 1) * size < total <= n * size
  {
    var size := Normalize(Param(1, pageSize)).pageSize;
    DivisionFacts(total, size);
  }

  lemma DivisionFacts(total: int, size: int)
    requires total >= 0 && size >= 1
    ensures var q := total / size;
            && total - q * size == total % size
            && q * size <= total < q * size + size
            && (q - 1) * size == q * size - size
            && (q + 1) * size == q * size + size
            && q >= 0
  {}

  /** Every page from 1 to Pages starts inside the list, and its offset does not wrap. */
  lemma OffsetInRange(total: int, pageSize: int, page: int)
    requires 0 <= total < HALF && 1 <= page <= Pages(total, pageSize)
    ensures var size := Limit(Param(page, pageSize));
            && Offset(Param(page, pageSize)) == (page - 1) * size
            && 0 <= (page - 1) * size < total
  {
    var size := Limit(Param(page, pageSize));
    PagesRoundsUp(total, pageSize);
    MulMonotone(size, page - 1, Pages(total, pageSize) - 1);
    MulMonotone(size, 0, page - 1);
  }

  /**
   * The offset is the one the page number means, so not negative, exactly when it fits in an
   * int64; beyond that the product wraps.
   */
  lemma OffsetExactIff(p: Param)
    requires IsInt64(p.pageNo) && IsInt64(p.pageSize)
    ensures Offset(p) == (Normalize(p).pageNo - 1) * Normalize(p).pageSize <==>
            Normalize(p).pageNo - 1 <= MAX / Normalize(p).pageSize
  {
    var no, size := Normalize(p).pageNo - 1, Normalize(p).pageSize;
    DivisionFacts(MAX, size);
    var q := MAX / size;
    if no <= q { MulMonotone(size, no, q); } else { MulMonotone(size, q + 1, no); }
    MulMonotone(size, 0, no);
  }

  /** A page number far out of range makes the OFFSET negative. */
  lemma OffsetWraps()
    ensures Offset(Param(0x4000_0000_0000_0001, 2)) == -HALF
  {}

  lemma SliceExtends<T>(all: seq<T>, off: int, lim: int)
    requires 0 <= off <= |all| && lim >= 0
    ensures all[..off] + Slice(all, off, lim) == all[..Min(off + lim, |all|)]
  {}

  lemma {:induction false} FirstPagesArePrefix<T>(all: seq<T>, pageSize: int, n: nat)
    requires |all| < HALF && n <= Pages(|all|, pageSize)
    ensures var upTo := Min(n * Limit(Param(1, pageSize)), |all|);
            0 <= upTo && FirstPages(all, pageSize, n) == all[..upTo]
  {
    if n > 0 {
      FirstPagesArePrefix(all, pageSize, n - 1);
      OffsetInRange(|all|, pageSize, n);
      var size := Limit(Param(1, pageSize));
      Next(n, size);
      SliceExtends(all, (n - 1) * size, size);
    }
  }

  lemma Next(n: int, size: int)
    ensures n * size == (n - 1) * size + size
  {}

  /**
   * For any list and any requested size, the pages 1 .. Pages are non-empty, and put together
   * they are the whole list: nothing is missed and nothing comes twice.
   */
  lemma PagesPartitionList<T>(all: seq<T>, pageSize: int)
    requires |all| < HALF
    ensures Pages(|all|, pageSize) >= 0
    ensures FirstPages(all, pageSize, Pages(|all|, pageSize)) == all
    ensures forall page | 1 <= page <= Pages(|all|, pageSize) ::
              0 < |Rows(all, Param(page, pageSize))| <= Limit(Param(page, pageSize))
  {
    PagesRoundsUp(|all|, pageSize);
    var n := Pages(|all|, pageSize);
    FirstPagesArePrefix(all, pageSize, n);
    forall page | 1 <= page <= n
      ensures 0 < |Rows(all, Param(page, pageSize))| <= Limit(Param(page, pageSize))
    {
      OffsetInRange(|all|, pageSize, page);
    }
  }

  /** Any later page is empty, as long as its offset has not wrapped. */
  lemma LaterPagesAreEmpty<T>(all: seq<T>, pageSize: int, page: int)
    requires |all| < HALF && page > Pages(|all|, pageSize) && page >= 1
    requires page - 1 <= MAX / Limit(Param(page, pageSize)) && IsInt64(page) && IsInt64(pageSize)
    ensures Rows(all, Param(page, pageSize)) == []
  {
    OffsetExactIff(Param(page, pageSize));
    PagesRoundsUp(|all|, pageSize);
    MulMonotone(Limit(Param(page, pageSize)), Pages(|all|, pageSize), page - 1);
    MulMonotone(Limit(Param(page, pageSize)), 0, page - 1);
  }

  /** Mapping each page and mapping the whole list come to the same pages. */
  lemma {:induction false} MapKeepsPages<S, T>(all: seq<S>, fn: S -> T, pageSize: int, n: nat)
    ensures FirstPages(MapSeq(all, fn), pageSize, n) == MapSeq(FirstPages(all, pageSize, n), fn)
    ensures n >= 1 ==>
              var p := Param(n, pageSize);
              var r, r' := New(Rows(all, p), |all|, Limit(p)), New(Rows(MapSeq(all, fn), p), |MapSeq(all, fn)|, Limit(p));
              && r.list == Rows(all, p)
              && Mapped(r, fn) == r'
              && r'.list == Rows(MapSeq(all, fn), p)
  {
    if n > 0 {
      MapKeepsPages(all, fn, pageSize, n - 1);
      MapSlice(all, fn, Offset(Param(n, pageSize)), Limit(Param(n, pageSize)));
      MapConcat(FirstPages(all, pageSize, n - 1), Rows(all, Param(n, pageSize)), fn);
    }
  }

  lemma MapSlice<S, T>(all: seq<S>, fn: S -> T, off: int, lim: int)
    ensures Slice(MapSeq(all, fn), off, lim) == MapSeq(Slice(all, off, lim), fn)
  {}

  lemma MapConcat<S, T>(a: seq<S>, b: seq<S>, fn: S -> T)
    ensures MapSeq(a + b, fn) == MapSeq(a, fn) + MapSeq(b, fn)
  {}
}
