/** Pages of a listing: the offset computed by SelectTransactions (apps/personal-core/pkg/model/transaction.go)
    and LIMIT as a slice of the answer. */
module Paging {

  const TwoTo31: int := 0x8000_0000
  const TwoTo63: int := 0x8000_0000_0000_0000

  predicate Int32(x: int) {
    -TwoTo31 <= x < TwoTo31
  }

  predicate Int64(x: int) {
    -TwoTo63 <= x < TwoTo63
  }

  /** Two's complement wrap-around. */
  function Wrapped(x: int, half: int): (r: int)
    requires half > 0
    ensures -half <= r < half && (x - r) % (2 * half) == 0
    ensures -half <= x < half ==> r == x
  {
    WrapAround(x, half);
    (x + half) % (2 * half) - half
  }

  lemma WrapAround(x: int, half: int)
    requires half > 0
    ensures (x - ((x + half) % (2 * half) - half)) % (2 * half) == 0
    ensures -half <= x < half ==> (x + half) % (2 * half) == x + half
  {
    var m := 2 * half;
    var q, r := (x + half) / m, (x + half) % m;
    assert x + half == m * q + r;
    assert x - (r - half) == m * q;
    Multiple(q, m);
    if -half <= x < half {
      SmallRemainder(x + half, m);
    }
  }

  lemma Multiple(q: int, m: int)
    requires m > 0
    ensures (m * q) % m == 0
  {
    Remainder(m * q, m, q, 0);
  }

  lemma SmallRemainder(x: int, m: int)
    requires 0 <= x < m
    ensures x % m == x
  {
  }

  /** The remainder is the only one. */
  lemma Remainder(x: int, m: int, q: int, r: int)
    requires m > 0 && x == m * q + r && 0 <= r < m
    ensures x % m == r
  {
    var d := x / m - q;
    assert m * d == r - x % m;
    Apart(m, d);
  }

  lemma Apart(m: int, d: int)
    requires m > 0
    ensures (d >= 1 ==> m * d >= m) && (d <= -1 ==> m * d <= -m)
  {
  }

  function Min(a: int, b: int): int {
    if a < b then a else b
  }

  /** LIMIT offset, count. */
  function Slice<T>(rows: seq<T>, offset: nat, count: nat): seq<T> {
    rows[Min(offset, |rows|)..Min(offset + count, |rows|)]
  }

  /** The offset of a page, in 64-bit arithmetic; a negative one becomes zero. */
  function Offset(page: int, size: int): nat {
    var offset := Wrapped((page - 1) * size, TwoTo63);
    if offset < 0 then 0 else offset
  }

  /** A size that is not positive asks for everything. */
  function PageOf<T>(rows: seq<T>, page: int, size: int): seq<T> {
    if size > 0 then Slice(rows, Offset(page, size), size) else rows
  }

  lemma NonNegative(a: int, b: int)
    requires a >= 0 && b >= 0
    ensures a * b >= 0
  {
  }

  lemma ProductFits(a: int, b: int, h: int)
    requires -h <= a <= h && -h <= b <= h
    ensures -(h * h) <= a * b <= h * h
  {
    NonNegative(h - a, h + b);
    NonNegative(h + a, h - b);
    NonNegative(h - a, h - b);
    NonNegative(h + a, h + b);
    assert (h - a) * (h + b) + (h + a) * (h - b) == 2 * (h * h) - 2 * (a * b);
    assert (h - a) * (h - b) + (h + a) * (h + b) == 2 * (h * h) + 2 * (a * b);
  }

  lemma PageFits<T>(rows: seq<T>, page: int, size: int)
    requires size >= 1
    ensures |PageOf(rows, page, size)| <= size
  {
  }

  lemma WrapFits(x: int)
    ensures Int32(Wrapped(x, TwoTo31))
  {
  }

  lemma NoWrap(x: int)
    requires Int64(x)
    ensures Wrapped(x, TwoTo63) == x
  {
  }

  /** For 32-bit requests the product never wraps. */
  lemma OffsetExact(page: int, size: int)
    requires Int32(page) && Int32(size)
    ensures Int64((page - 1) * size)
    ensures page >= 1 && size >= 1 ==> Offset(page, size) == (page - 1) * size
  {
    ProductFits(page - 1, size, TwoTo31 + 1);
    NoWrap((page - 1) * size);
  }

  /** Pages 1 to n, one after the other. */
  function PageRun<T>(page: nat -> seq<T>, n: nat): seq<T> {
    if n == 0 then [] else PageRun(page, n - 1) + page(n)
  }

  lemma {:induction false} PageRunSame<T>(page: nat -> seq<T>, other: nat -> seq<T>, n: nat)
    requires forall k :: 1 <= k <= n ==> page(k) == other(k)
    ensures PageRun(page, n) == PageRun(other, n)
  {
    if n > 0 {
      PageRunSame(page, other, n - 1);
    }
  }

  function PagesTo<T>(rows: seq<T>, size: int, n: nat): seq<T> {
    PageRun((k: nat) => PageOf(rows, k, size), n)
  }

  lemma PagesStep<T>(rows: seq<T>, size: int, n: nat)
    requires n > 0
    ensures PagesTo(rows, size, n) == PagesTo(rows, size, n - 1) + PageOf(rows, n, size)
  {
    PageRunSame((k: nat) => PageOf(rows, k, size), (k: nat) => PageOf(rows, k, size), n - 1);
  }

  lemma {:induction false} PagesCover<T>(rows: seq<T>, size: int, n: nat)
    requires Int32(size) && size >= 1 && Int32(n)
    ensures n * size >= 0 && PagesTo(rows, size, n) == rows[..Min(n * size, |rows|)]
    decreases n
  {
    if n > 0 {
      PagesCover(rows, size, n - 1);
      PagesStep(rows, size, n);
      OffsetExact(n, size);
      var before := (n - 1) * size;
      assert n * size == before + size;
      Adjacent(rows, Min(before, |rows|), Min(before + size, |rows|));
    }
  }

  lemma Adjacent<T>(rows: seq<T>, i: int, j: int)
    requires 0 <= i <= j <= |rows|
    ensures rows[..i] + rows[i..j] == rows[..j]
  {
  }

  /** The number of pages: total / size rounded up. */
  function LastPage(total: nat, size: int): (n: nat)
    requires size >= 1
    ensures (n - 1) * size < total <= n * size || total == n == 0
  {
    if total == 0 then 0 else
      var n := (total - 1) / size + 1;
      assert (total - 1) == size * ((total - 1) / size) + (total - 1) % size;
      n
  }

  /** Pages 1 to the last give every row once, in order; all but the last are full, and those after it are
      empty. */
  lemma PagesComplete<T>(rows: seq<T>, size: int)
    requires Int32(size) && size >= 1 && Int32(LastPage(|rows|, size))
    ensures PagesTo(rows, size, LastPage(|rows|, size)) == rows
    ensures forall page :: 1 <= page < LastPage(|rows|, size) ==> |PageOf(rows, page, size)| == size
    ensures forall page :: LastPage(|rows|, size) < page && Int32(page) ==> PageOf(rows, page, size) == []
  {
    var n := LastPage(|rows|, size);
    PagesCover(rows, size, n);
    assert rows[..|rows|] == rows;
    forall page | 1 <= page < n
      ensures |PageOf(rows, page, size)| == size
    {
      OffsetExact(page, size);
      Further(page, n - 1, size);
      assert page * size == (page - 1) * size + size;
    }
    forall page | n < page && Int32(page)
      ensures PageOf(rows, page, size) == []
    {
      OffsetExact(page, size);
      Further(n, page - 1, size);
    }
  }

  lemma Further(a: int, b: int, size: int)
    requires a <= b && size >= 1
    ensures a * size <= b * size
  {
    assert (b - a) * size >= 0;
  }
}
