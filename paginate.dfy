/**
 Offset arithmetic for a page request (`Paginate.GetOffset`) and the result
 envelope (`Pagination`). Go's `int` is taken to be 64 bits wide, so a product
 that leaves that range wraps around as it does in Go.
 */
module Paginate {
  import opened Wrappers

  const DefaultPage := 1
  const DefaultLimit := 10

  const Modulus: int := 0x1_0000_0000_0000_0000

  /** The values of Go's `int` on a 64-bit platform. */
  predicate InRange(x: int)
  {
    -0x8000_0000_0000_0000 <= x < 0x8000_0000_0000_0000
  }

  /** Go's `int` on a 64-bit platform. */
  type Int64 = x: int | InRange(x)

  /** Two's-complement wrap-around of an exact result into 64 bits. */
  function Wrap64(x: int): (r: Int64)
    ensures (r - x) % Modulus == 0
    ensures InRange(x) ==> r == x
  {
    (x + 0x8000_0000_0000_0000) % Modulus - 0x8000_0000_0000_0000
  }

  datatype Paginate = Paginate(page: Int64, limit: Int64)

  /** The number of rows before the requested page; pages below 1 read from the start. */
  function GetOffset(p: Paginate): (r: Int64)
    ensures p.page < 1 ==> r == 0
    ensures p.page >= 1 ==> (r - (p.page - 1) * p.limit) % Modulus == 0
    ensures p.page >= 1 && InRange((p.page - 1) * p.limit) ==> r == (p.page - 1) * p.limit
  {
    if p.page < 1 then 0 else Wrap64((p.page - 1) * p.limit)
  }

  /** Consecutive pages follow each other without gap or overlap. */
  lemma PagesTile(page: Int64, limit: Int64)
    requires 1 <= page && page + 1 < 0x8000_0000_0000_0000
    requires InRange((page - 1) * limit) && InRange(page * limit)
    ensures GetOffset(Paginate(page + 1, limit)) == GetOffset(Paginate(page, limit)) + limit
  {
    assert page * limit == (page - 1) * limit + limit;
  }

  lemma MulNonNegative(a: int, b: int)
    requires a >= 0 && b >= 0
    ensures a * b >= 0
  {
  }

  /** With a non-negative limit and no overflow the offset is never negative. */
  lemma OffsetNonNegative(p: Paginate)
    requires p.limit >= 0
    requires p.page < 1 || InRange((p.page - 1) * p.limit)
    ensures GetOffset(p) >= 0
  {
    if p.page >= 1 {
      MulNonNegative(p.page - 1, p.limit);
    }
  }

  /** The offset is not clamped at zero: a negative limit gives a negative offset. */
  lemma NegativeLimitOffset()
    ensures GetOffset(Paginate(3, -10)) == -20
  {
  }

  /** The product wraps around in 64 bits: page 3 of pages of 2^62 rows. */
  lemma OffsetWrapsAround()
    ensures GetOffset(Paginate(3, 0x4000_0000_0000_0000)) == -0x8000_0000_0000_0000
  {
  }

  /** The envelope returned to callers (`utils.Result`). */
  datatype Result<T> = Result(data: seq<T>, page: Int64, limit: Int64, total: Int64)

  /** Wraps one page of rows; without a request the whole result is one page. */
  function Pagination<T>(data: seq<T>, total: Int64, paginate: Option<Paginate>): (r: Result<T>)
    ensures r.data == data && r.total == total
    ensures paginate.None? ==> r.page == DefaultPage && r.limit == total
    ensures paginate.Some? ==> r.page == paginate.value.page && r.limit == paginate.value.limit
  {
    var result := Result(data, DefaultPage, total, total);
    match paginate
    case None => result
    case Some(p) => result.(page := p.page, limit := p.limit)
  }

  /** Read back as a request, the envelope addresses the rows that were asked
      for: the same page and limit, or, without a request, one page from offset 0
      whose limit is the total. */
  lemma PaginationReadsBack<T>(data: seq<T>, total: Int64, paginate: Option<Paginate>)
    ensures var r := Pagination(data, total, paginate);
            var q := Paginate(r.page, r.limit);
            (paginate.Some? ==> q == paginate.value) &&
            (paginate.None? ==> GetOffset(q) == 0 && q.limit == r.total)
  {
  }
}
