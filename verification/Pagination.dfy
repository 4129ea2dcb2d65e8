/** Listing products page by page, newest id first, and the query parameters that select a page. */
module Pagination {
  import opened Options
  import opened Products
  import opened Text

  // ----- The two queries of List -----

  function LiveIds(table: Table): set<nat> {
    set id | id in table && table[id].Live?
  }

  lemma {:induction false} GreatestExists(ids: set<nat>)
    requires ids != {}
    ensures exists m :: m in ids && forall x :: x in ids ==> x <= m
    decreases |ids|
  {
    var x :| x in ids;
    if ids == {x} {
    } else {
      var rest := ids - {x};
      assert rest != {};
      GreatestExists(rest);
      var m :| m in rest && forall y :: y in rest ==> y <= m;
      assert forall y :: y in ids ==> y == x || y in rest;
      var greatest := if x > m then x else m;
      assert greatest in ids && forall y :: y in ids ==> y <= greatest;
    }
  }

  function Greatest(ids: set<nat>): (m: nat)
    requires ids != {}
    ensures m in ids && forall x :: x in ids ==> x <= m
  {
    GreatestExists(ids);
    var m :| m in ids && forall x :: x in ids ==> x <= m;
    m
  }

  /** ORDER BY id DESC. */
  function Descending(ids: set<nat>): (s: seq<nat>)
    ensures |s| == |ids|
    ensures forall i :: 0 <= i < |s| ==> s[i] in ids
    decreases |ids|
  {
    if ids == {} then [] else
      var m := Greatest(ids);
      [m] + Descending(ids - {m})
  }

  /** The live products, newest id first. */
  function Rows(table: Table): (rows: seq<Product>)
    ensures |rows| == |LiveIds(table)|
  {
    var ids := Descending(LiveIds(table));
    seq(|ids|, i requires 0 <= i < |ids| => table[ids[i]].product)
  }

  function Min(a: nat, b: nat): nat {
    if a < b then a else b
  }

  /** OFFSET and LIMIT. */
  function Slice<T>(rows: seq<T>, offset: nat, limit: nat): (s: seq<T>)
    ensures |s| <= limit
  {
    rows[Min(offset, |rows|)..Min(offset + limit, |rows|)]
  }

  /** The rows of one page. */
  function Page(table: Table, page: nat, size: nat): seq<Product>
    requires page >= 1
  {
    Slice(Rows(table), (page - 1) * size, size)
  }

  // ----- Pages partition the live products -----

  lemma {:induction false} DescendingIsSorted(ids: set<nat>, id: nat)
    ensures forall i, j :: 0 <= i < j < |Descending(ids)| ==> Descending(ids)[i] > Descending(ids)[j]
    ensures id in Descending(ids) <==> id in ids
    decreases |ids|
  {
    if ids == {} {
    } else {
      var rest := ids - {Greatest(ids)};
      DescendingIsSorted(rest, id);
      forall i, j | 0 <= i < j < |Descending(ids)| ensures Descending(ids)[i] > Descending(ids)[j] {
        assert Descending(ids)[j] == Descending(rest)[j - 1] && Descending(rest)[j - 1] in rest;
      }
    }
  }

  /** The rows are the live products, each exactly once, in strictly descending id order. */
  lemma RowsAreLiveProducts(table: Table, p: Product)
    requires WellKeyed(table)
    ensures forall i, j :: 0 <= i < j < |Rows(table)| ==> Rows(table)[i].id > Rows(table)[j].id
    ensures p in Rows(table) <==> Lookup(table, p.id) == Some(p)
  {
    var ids := Descending(LiveIds(table));
    DescendingIsSorted(LiveIds(table), p.id);
    assert forall i :: 0 <= i < |ids| ==> Rows(table)[i] == table[ids[i]].product && Rows(table)[i].id == ids[i];
    if Lookup(table, p.id) == Some(p) {
      var i :| 0 <= i < |ids| && ids[i] == p.id;
      assert Rows(table)[i] == p;
    }
  }

  /** The first n pages, one after another. */
  function Pages(table: Table, size: nat, n: nat): seq<Product> {
    if n == 0 then [] else Pages(table, size, n - 1) + Page(table, n, size)
  }

  /** A slice continues the rows before it. */
  lemma SliceExtends<T>(rows: seq<T>, offset: nat, limit: nat)
    ensures rows[..Min(offset, |rows|)] + Slice(rows, offset, limit) == rows[..Min(offset + limit, |rows|)]
  {
  }

  lemma {:induction false} PagesArePrefix(table: Table, size: nat, n: nat)
    ensures Pages(table, size, n) == Rows(table)[..Min(n * size, |Rows(table)|)]
  {
    if n == 0 {
    } else {
      PagesArePrefix(table, size, n - 1);
      SliceExtends(Rows(table), (n - 1) * size, size);
      assert n * size == (n - 1) * size + size;
    }
  }

  function PageCount(total: nat, size: nat): nat
    requires size >= 1
  {
    (total + size - 1) / size
  }

  lemma PageCountCovers(total: nat, size: nat)
    requires size >= 1
    ensures PageCount(total, size) * size >= total
    ensures total > 0 ==> PageCount(total, size) >= 1 && (PageCount(total, size) - 1) * size < total
  {
    var n := PageCount(total, size);
    assert total + size - 1 == n * size + (total + size - 1) % size;
    assert n * size == (n - 1) * size + size;
  }

  lemma OffsetPastEnd(total: nat, size: nat, page: nat)
    requires size >= 1 && page >= 1
    ensures (page - 1) * size >= total <==> page > PageCount(total, size)
  {
    var n := PageCount(total, size);
    PageCountCovers(total, size);
    if page > n {
      MulMonotone(n, page - 1, size);
    } else {
      MulMonotone(page - 1, n - 1, size);
    }
  }

  lemma MulMonotone(a: nat, b: nat, c: nat)
    requires a <= b
    ensures a * c <= b * c
  {
  }

  /** Pages 1 to ceil(total / size) put together are the live products in order; every later page is empty, and no
      earlier one is. */
  lemma {:induction false} PagesPartition(table: Table, size: nat, page: nat)
    requires size >= 1 && page >= 1
    ensures Pages(table, size, PageCount(|LiveIds(table)|, size)) == Rows(table)
    ensures Page(table, page, size) == [] <==> page > PageCount(|LiveIds(table)|, size)
  {
    var total := |Rows(table)|;
    PagesArePrefix(table, size, PageCount(total, size));
    PageCountCovers(total, size);
    OffsetPastEnd(total, size, page);
    assert Rows(table)[..total] == Rows(table);
  }

  // ----- Query parameters -----

  const MAX_INT := 0x7FFF_FFFF_FFFF_FFFF

  /** strconv.Atoi, its error dropped: zero for text that is no number, the nearest 64-bit value for one that is too
      large. */
  function Atoi(s: string): int {
    var (negative, digits) := if s != "" && (s[0] == '-' || s[0] == '+') then (s[0] == '-', s[1..]) else (false, s);
    if digits == "" || !AllDigits(digits) then 0
    else if negative then if DigitsValue(digits) > MAX_INT + 1 then -MAX_INT - 1 else -(DigitsValue(digits) as int)
    else if DigitsValue(digits) > MAX_INT then MAX_INT
    else DigitsValue(digits)
  }

  /** The text is no whole number: after an optional sign there is nothing, or something other than digits. */
  predicate NoNumber(s: string) {
    var digits := if s != "" && s[0] in "+-" then s[1..] else s;
    digits == "" || exists i :: 0 <= i < |digits| && !('0' <= digits[i] <= '9')
  }

  /** Page and size, absent or not, as List needs them: the page at least 1, the size between 1 and 100. */
  method ParsePage(pageParam: Option<string>, sizeParam: Option<string>) returns (page: int, size: int)
    ensures 1 <= page <= MAX_INT && 1 <= size <= 100
    ensures pageParam.None? ==> page == 1
    ensures sizeParam.None? ==> size == 10
    ensures pageParam.Some? && (NoNumber(pageParam.value) || pageParam.value[0] == '-') ==> page == 1
    ensures sizeParam.Some? && (NoNumber(sizeParam.value) || sizeParam.value[0] == '-') ==> size == 10
    ensures pageParam.Some? ==> page == if Atoi(pageParam.value) >= 1 then Atoi(pageParam.value) else 1
    ensures sizeParam.Some? ==> size == if 1 <= Atoi(sizeParam.value) <= 100 then Atoi(sizeParam.value) else 10
  {
    assert AllDigits("1") && AllDigits("10");
    page := Atoi(if pageParam.Some? then pageParam.value else "1");
    size := Atoi(if sizeParam.Some? then sizeParam.value else "10");
    AtoiOfNoNumber(if pageParam.Some? then pageParam.value else "1");
    AtoiOfNoNumber(if sizeParam.Some? then sizeParam.value else "10");
    assert DigitsValue("1") == 1 by {
      assert "1"[..0] == "";
    }
    assert DigitsValue("10") == 10 by {
      assert "10"[..1] == "1";
    }
    if page < 1 {
      page := 1;
    }
    if size < 1 || size > 100 {
      size := 10;
    }
  }

  /** A text that is no number counts as zero, and one that starts with a minus sign as no more than that. */
  lemma AtoiOfNoNumber(s: string)
    ensures NoNumber(s) ==> Atoi(s) == 0
    ensures s != "" && s[0] == '-' ==> Atoi(s) <= 0
  {
    var digits := if s != "" && s[0] in "+-" then s[1..] else s;
    if NoNumber(s) && digits != "" {
      var i :| 0 <= i < |digits| && !('0' <= digits[i] <= '9');
      assert !IsDigit(digits[i]);
      assert !AllDigits(digits);
    }
  }

  /** Numerals come through unchanged. */
  lemma AtoiOfDecimal(n: nat)
    requires n <= MAX_INT
    ensures Atoi(Decimal(n)) == n
  {
    DecimalRoundTrip(n);
  }
}
