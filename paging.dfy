/**
 * The pagination envelope (`PageResponse.java`) and the slice that Spring
 * Data's `PageRequest` + `PageImpl` produce for the repository listings.
 */
module Paging {
  import opened Wrappers
  import opened Errors
  import opened Seqs

  /** `PageResponse<T>`: one page of a listing and its position in the whole. */
  datatype PageResponse<T> = PageResponse(
    content: seq<T>,
    page: int,
    size: int,
    totalElements: int,
    totalPages: int,
    last: bool)

  /** `(int) Math.ceil((double) n / d)` for a positive divisor. */
  function CeilDiv(n: nat, d: int): (r: nat)
    requires d > 0
  {
    (n + d - 1) / d
  }

  /** CeilDiv is the least number of pages of `d` items that hold `n` items. */
  lemma CeilDivLeast(n: nat, d: int, k: int)
    requires d > 0 && k >= 0
    ensures k >= CeilDiv(n, d) <==> k * d >= n
  {
    var r := CeilDiv(n, d);
    var m := (n + d - 1) % d;
    assert n + d - 1 == r * d + m && 0 <= m < d;
    if k >= r {
      MulMonotone(r, k, d);
    } else {
      MulMonotone(k, r - 1, d);
      assert (r - 1) * d == r * d - d;
    }
  }

  lemma MulMonotone(a: int, b: int, d: int)
    requires a <= b && d > 0
    ensures a * d <= b * d
  {
    assert b * d - a * d == (b - a) * d;
  }

  const PageIndexMessage := "Page index must not be less than zero"
  const PageSizeMessage := "Page size must not be less than one"

  /**
   * What `repository.findXxx(PageRequest.of(page, size, sort))` returns for
   * the rows the query selects, in the order it sorts them: `PageRequest.of`
   * rejects a negative index or a size below one; otherwise the page holds
   * the rows from offset `page * size` on, and `isLast()` is
   * `!(page + 1 < totalPages)`.
   */
  function SpringPage<T>(rows: seq<T>, page: int, size: int): Result<PageResponse<T>, Exception> {
    if page < 0 then Failure(IllegalArgument(PageIndexMessage))
    else if size < 1 then Failure(IllegalArgument(PageSizeMessage))
    else
      var n := |rows|;
      var offset := page * size;
      var content := if offset < n then rows[offset..if offset + size < n then offset + size else n] else [];
      var totalPages := CeilDiv(n, size);
      Success(PageResponse(content, page, size, n, totalPages, !(page + 1 < totalPages)))
  }

  /** The Spring page: its error cases, its window of the rows and its `last` flag. */
  lemma SpringPageSpec<T>(rows: seq<T>, page: int, size: int)
    ensures SpringPage(rows, page, size).Failure? <==> page < 0 || size < 1
    ensures page >= 0 && size >= 1 ==>
      var r := SpringPage(rows, page, size).value;
      && r.totalElements == |rows|
      && |r.content| <= size
      && (forall k :: 0 <= k < |r.content| ==> page * size + k < |rows| && r.content[k] == rows[page * size + k])
      && (page * size + size <= |rows| ==> |r.content| == size)
      && (r.last <==> (page + 1) * size >= |rows|)
  {
    if page >= 0 && size >= 1 {
      CeilDivLeast(|rows|, size, page + 1);
      assert (page + 1) * size == page * size + size;
      assert page * size >= 0;
    }
  }

  /** A page of a reordering of `selected` holds only rows with a property all of `selected` has. */
  lemma PageKeeps<T>(ordered: seq<T>, selected: seq<T>, page: int, size: int, P: T -> bool)
    requires multiset(ordered) == multiset(selected) && page >= 0 && size >= 1
    requires forall j | 0 <= j < |selected| :: P(selected[j])
    ensures SpringPage(ordered, page, size).Success?
    ensures
      var r := SpringPage(ordered, page, size).value;
      r.totalElements == |selected| && forall i | 0 <= i < |r.content| :: P(r.content[i])
  {
    SpringPageSpec(ordered, page, size);
    SameElements(ordered, selected);
    var r := SpringPage(ordered, page, size).value;
    forall i | 0 <= i < |r.content| ensures P(r.content[i]) {
      var x := ordered[page * size + i];
      assert r.content[i] == x;
      assert x in selected;
      var j :| 0 <= j < |selected| && selected[j] == x;
    }
  }

  /** A page of rows sorted largest key first is sorted the same way. */
  lemma PageSortedDesc<T>(rows: seq<T>, page: int, size: int, key: T -> int)
    requires SortedDesc(rows, key) && page >= 0 && size >= 1
    ensures SpringPage(rows, page, size).Success?
    ensures SortedDesc(SpringPage(rows, page, size).value.content, key)
  {
    SpringPageSpec(rows, page, size);
    var c := SpringPage(rows, page, size).value.content;
    forall i, j | 0 <= i < j < |c| ensures key(c[i]) >= key(c[j]) {
      assert c[i] == rows[page * size + i] && c[j] == rows[page * size + j];
    }
  }

  /** Two orderings of the same rows have the same length and the same members. */
  lemma SameElements<T>(a: seq<T>, b: seq<T>)
    requires multiset(a) == multiset(b)
    ensures |a| == |b|
    ensures forall x :: x in a ==> x in b
  {
    assert |multiset(a)| == |multiset(b)|;
    forall x | x in a ensures x in b {
      assert x in multiset(a);
    }
  }
}
