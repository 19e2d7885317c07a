/** Page metadata and page windows, as the repositories compute them. */
module Pagination {

  /** `{ page, limit, total, pages, hasNext, hasPrev }`. */
  datatype Page = Page(page: int, limit: int, total: int, pages: int, hasNext: bool, hasPrev: bool)

  /** `Math.ceil(a / b)` for a divisor other than 0 (which gives `Infinity`
      or `NaN`). */
  function CeilDiv(a: int, b: int): (r: int)
    requires b != 0
    ensures b > 0 ==> (r - 1) * b < a <= r * b
    ensures b < 0 ==> r * b <= a < (r - 1) * b
  {
    if b > 0 then
      var q := a / b;
      assert a == q * b + a % b;
      if a % b == 0 then q else q + 1
    else
      var q := a / -b;
      assert a == q * -b + a % -b;
      -q
  }

  /** `(page - 1) * limit`. */
  function Offset(page: int, limit: int): int {
    (page - 1) * limit
  }

  lemma MulMono(a: int, b: int, c: int)
    requires a <= b && c > 0
    ensures a * c <= b * c
  {
    assert b * c - a * c == (b - a) * c;
  }

  /** The metadata of one page. For a positive `limit`, `pages` is the
      fewest pages of `limit` rows that hold all `total` rows and there is a
      next page exactly when `page` is before the last one; a negative
      `limit` gives the ceiling of a negative quotient and `hasNext` compares
      `page * limit` with `total` all the same. There is a previous page
      exactly when `page` is past the first. */
  function Paginate(page: int, limit: int, total: int): (r: Page)
    requires limit != 0
    ensures r.page == page && r.limit == limit && r.total == total
    ensures limit > 0 ==> (r.pages - 1) * limit < total <= r.pages * limit
    ensures limit < 0 ==> r.pages * limit <= total < (r.pages - 1) * limit
    ensures limit > 0 ==> (r.hasNext <==> page < r.pages)
    ensures r.hasNext <==> page * limit < total
    ensures r.hasPrev <==> page > 1
  {
    var pages := CeilDiv(total, limit);
    assert limit > 0 ==> (page < pages <==> page * limit < total) by {
      if limit > 0 { HasNextIff(page, limit, total); }
    }
    Page(page, limit, total, pages, page * limit < total, page > 1)
  }

  lemma HasNextIff(page: int, limit: int, total: int)
    requires limit > 0
    ensures page * limit < total <==> page < CeilDiv(total, limit)
  {
    var pages := CeilDiv(total, limit);
    if page < pages {
      MulMono(page, pages - 1, limit);
    } else {
      MulMono(pages, page, limit);
    }
  }

  /** Array.prototype.slice's reading of an index: negative counts from the
      end, and the result is clamped to [0, len]. */
  function SliceIndex(i: int, len: nat): (r: nat)
    ensures r <= len
    ensures 0 <= i <= len ==> r == i
    ensures i > len ==> r == len
    ensures i < 0 ==> r == if len + i > 0 then len + i else 0
  {
    if i < 0 then (if len + i > 0 then len + i else 0)
    else if i > len then len
    else i
  }

  /** `s.slice(start, end)`. */
  function JsSlice<T>(s: seq<T>, start: int, end: int): (r: seq<T>)
    ensures |r| <= |s|
    ensures 0 <= start <= end ==> |r| <= end - start
    ensures 0 <= start && start <= end ==> r == s[SliceIndex(start, |s|)..SliceIndex(end, |s|)]
    ensures |r| == if SliceIndex(start, |s|) < SliceIndex(end, |s|) then SliceIndex(end, |s|) - SliceIndex(start, |s|) else 0
    ensures forall k :: 0 <= k < |r| ==> r[k] == s[SliceIndex(start, |s|) + k]
  {
    var a := SliceIndex(start, |s|);
    var b := SliceIndex(end, |s|);
    if a < b then s[a..b] else []
  }

  /** `s` read backwards. */
  function Reverse<T>(s: seq<T>): (r: seq<T>)
    ensures |r| == |s|
    ensures forall i :: 0 <= i < |s| ==> r[i] == s[|s| - 1 - i]
  {
    seq(|s|, i requires 0 <= i < |s| => s[|s| - 1 - i])
  }

  /** The rows a Prisma `findMany` with `skip` and `take` returns: a
      non-negative `take` counts from the start of the list; a negative one
      reads the list from its end, skipping `skip` rows and taking `-take`,
      and gives them back in list order. */
  function FindManyWindow<T>(s: seq<T>, skip: nat, take: int): (r: seq<T>)
    ensures |r| <= if take >= 0 then take else -take
    ensures take >= 0 ==> r == JsSlice(s, skip, skip + take)
    ensures take < 0 ==> var hi := if skip < |s| then |s| - skip else 0;
                         var lo := if hi + take > 0 then hi + take else 0;
                         r == s[lo..hi]
  {
    if take >= 0 then JsSlice(s, skip, skip + take)
    else
      FromTheEnd(s, skip, -take);
      Reverse(JsSlice(Reverse(s), skip, skip - take))
  }

  /** Skipping and taking on the reversed list, then reversing back, is the
      slice that ends `skip` rows before the end. */
  lemma FromTheEnd<T>(s: seq<T>, skip: nat, n: nat)
    ensures var hi := if skip < |s| then |s| - skip else 0;
            var lo := if hi - n > 0 then hi - n else 0;
            Reverse(JsSlice(Reverse(s), skip, skip + n)) == s[lo..hi]
  {
    var w := JsSlice(Reverse(s), skip, skip + n);
    var a := SliceIndex(skip, |s|);
    var b := SliceIndex(skip + n, |s|);
    var hi := if skip < |s| then |s| - skip else 0;
    var lo := if hi - n > 0 then hi - n else 0;
    assert |w| == b - a && hi == |s| - a && lo == |s| - b;
    forall k | 0 <= k < |w| ensures Reverse(w)[k] == s[lo..hi][k] {
      assert Reverse(w)[k] == w[|w| - 1 - k] == Reverse(s)[a + |w| - 1 - k];
    }
  }

  /** Every row of a window is a row of the list. */
  lemma WindowWithin<T>(s: seq<T>, skip: nat, take: int)
    ensures forall k :: 0 <= k < |FindManyWindow(s, skip, take)| ==> FindManyWindow(s, skip, take)[k] in s
  {
    var w := FindManyWindow(s, skip, take);
    if take >= 0 {
      var a := SliceIndex(skip, |s|);
      forall k | 0 <= k < |w| ensures w[k] in s { assert w[k] == s[a + k]; }
    } else {
      var hi := if skip < |s| then |s| - skip else 0;
      var lo := if hi + take > 0 then hi + take else 0;
      forall k | 0 <= k < |w| ensures w[k] in s { assert w[k] == s[lo + k]; }
    }
  }

  /** For a page from 1 on and a positive limit, Prisma's window is the
      page's slice. */
  lemma FindManyIsPageOf<T>(s: seq<T>, page: int, limit: int)
    requires page >= 1 && limit > 0
    ensures Offset(page, limit) >= 0
    ensures FindManyWindow(s, Offset(page, limit), limit) == PageOf(s, page, limit)
  {
    MulMono(0, page - 1, limit);
  }

  /** A negative offset, which Prisma refuses as a `skip`, comes exactly from
      a page before the first with a positive limit, or a page past the
      first with a negative one. */
  lemma NegativeOffset(page: int, limit: int)
    requires limit != 0
    ensures Offset(page, limit) < 0 <==> (limit > 0 && page < 1) || (limit < 0 && page > 1)
  {
    if limit > 0 {
      if page >= 1 { MulMono(0, page - 1, limit); } else { MulMono(page - 1, -1, limit); }
    } else {
      if page > 1 { MulMono(0, page - 1, -limit); } else { MulMono(page - 1, 0, -limit); }
    }
  }

  /** The rows of page `page`. */
  function PageOf<T>(s: seq<T>, page: int, limit: int): (r: seq<T>)
    ensures limit >= 0 && page >= 1 ==> |r| <= limit
  {
    if limit >= 0 && page >= 1 then
      assert 0 <= Offset(page, limit) by { MulMono(0, page - 1, limit + 1); }
      JsSlice(s, Offset(page, limit), Offset(page, limit) + limit)
    else JsSlice(s, Offset(page, limit), Offset(page, limit) + limit)
  }

  /** Every row is on exactly the page its index says, at the position its
      index says, and that page is within the page count. */
  lemma RowIsOnItsPage<T>(s: seq<T>, limit: int, i: int)
    requires limit > 0 && 0 <= i < |s|
    ensures var p := i / limit + 1;
            && 1 <= p <= Paginate(p, limit, |s|).pages
            && i % limit < |PageOf(s, p, limit)|
            && PageOf(s, p, limit)[i % limit] == s[i]
  {
    var p := i / limit + 1;
    assert i == (p - 1) * limit + i % limit;
    var pages := Paginate(p, limit, |s|).pages;
    if p > pages {
      MulMono(pages, p - 1, limit);
    }
    assert 0 <= Offset(p, limit);
  }

  /** Page 0, which JavaScript lets through, is always empty: its window is
      `slice(-limit, 0)`. */
  lemma PageZeroIsEmpty<T>(s: seq<T>, limit: int)
    requires limit > 0
    ensures PageOf(s, 0, limit) == []
  {
  }
}
