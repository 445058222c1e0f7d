/**
 * Page bookkeeping of the artworks table: the fixed page size, the request the
 * table sends for a zero-based page index, the offset it gives the paginator,
 * and the shape of a catalog response with its total-count fallback.
 */
module Paging {
  import opened Optional
  import opened Artworks

  /** Rows shown per page. */
  const RowsPerPage: nat := 5

  /** Total count used when the response carries none (or a zero). */
  const DefaultTotal: int := 100

  /** The request URL up to the page number. */
  const ApiBase: string := "https://api.artic.edu/api/v1/artworks?page="

  /** The catalog numbers its pages from 1; the table from 0. */
  function ApiPage(page: nat): (n: int)
    ensures n >= 1
    ensures n - 1 == page
  {
    page + 1
  }

  // ---------------------------------------------------------------------------
  // Decimal rendering of the page number in the query string

  predicate IsDigit(c: char)
  {
    '0' <= c <= '9'
  }

  predicate AllDigits(s: string)
  {
    forall i :: 0 <= i < |s| ==> IsDigit(s[i])
  }

  function DigitChar(d: nat): (c: char)
    requires d < 10
    ensures IsDigit(c)
  {
    (48 + d) as char
  }

  function DigitValue(c: char): (d: nat)
    requires IsDigit(c)
    ensures d < 10 && DigitChar(d) == c
  {
    c as int - 48
  }

  /** How a template literal renders a non-negative integer: decimal, no leading zeros. */
  function Decimal(n: nat): (s: string)
    ensures |s| >= 1 && AllDigits(s)
    ensures |s| > 1 ==> s[0] != '0'
    decreases n
  {
    if n < 10 then [DigitChar(n)] else Decimal(n / 10) + [DigitChar(n % 10)]
  }

  /** The value of a non-empty string of decimal digits. */
  function ParseDecimal(s: string): nat
    requires |s| >= 1 && AllDigits(s)
    decreases |s|
  {
    if |s| == 1 then DigitValue(s[0])
    else 10 * ParseDecimal(s[..|s| - 1]) + DigitValue(s[|s| - 1])
  }

  lemma {:induction false} ParseDecimalOfDecimal(n: nat)
    ensures ParseDecimal(Decimal(n)) == n
    decreases n
  {
    if n >= 10 {
      var s := Decimal(n);
      assert s[..|s| - 1] == Decimal(n / 10);
      ParseDecimalOfDecimal(n / 10);
    }
  }

  /** The URL fetched for the zero-based page index `page`. */
  function RequestUrl(page: nat): (url: string)
    ensures |url| > |ApiBase| && url[..|ApiBase|] == ApiBase
    ensures AllDigits(url[|ApiBase|..])
  {
    var digits := Decimal(ApiPage(page));
    assert (ApiBase + digits)[|ApiBase|..] == digits;
    ApiBase + digits
  }

  /** The zero-based page a request URL asks for, reading its 1-based query number. */
  function RequestedPage(url: string): Option<nat>
  {
    if |url| > |ApiBase| && url[..|ApiBase|] == ApiBase && AllDigits(url[|ApiBase|..])
       && ParseDecimal(url[|ApiBase|..]) >= 1
    then Some(ParseDecimal(url[|ApiBase|..]) - 1)
    else None
  }

  /** The request for page `page` asks the catalog for exactly that page. */
  lemma RequestUrlNamesPage(page: nat)
    ensures RequestedPage(RequestUrl(page)) == Some(page)
  {
    var digits := Decimal(ApiPage(page));
    assert RequestUrl(page)[|ApiBase|..] == digits;
    ParseDecimalOfDecimal(ApiPage(page));
  }

  /** Distinct pages are fetched from distinct URLs. */
  lemma RequestUrlInjective(p: nat, q: nat)
    requires RequestUrl(p) == RequestUrl(q)
    ensures p == q
  {
    RequestUrlNamesPage(p);
    RequestUrlNamesPage(q);
  }

  // ---------------------------------------------------------------------------
  // Paginator offset

  /** The index of the first row of page `page`, as handed to the paginator. */
  function PaginatorFirst(page: nat): (first: nat)
    ensures first % RowsPerPage == 0
    ensures first / RowsPerPage == page
  {
    page * RowsPerPage
  }

  // ---------------------------------------------------------------------------
  // Catalog responses

  /** The `pagination` object of a response; `total` may be absent. */
  datatype Pagination = Pagination(total: Option<int>)

  /** A parsed response body: the page's records and, if present, its `pagination` object. */
  datatype Response = Response(data: seq<Artwork>, pagination: Option<Pagination>)

  /** `total || 100`: an absent or zero total falls back to 100. */
  function TotalOrDefault(total: Option<int>): (t: int)
    ensures t != 0
    ensures (total.Some? && total.value != 0) <==> (total.Some? && t == total.value)
    ensures (total.None? || total.value == 0) ==> t == DefaultTotal
  {
    match total
    case Some(n) => if n != 0 then n else DefaultTotal
    case None => DefaultTotal
  }
}
