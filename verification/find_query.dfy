/** `FindQuery` of `backend/core/find_query.py`: the pagination and filter
    parameters of a backend lookup, with the validators pydantic runs when
    one is constructed. */
module FindQueries {

  import opened Errors
  import opened Text

  datatype FindQuery = FindQuery(pageIndex: int, pageSize: int, filter: string, orderBy: string)

  const DefaultPageIndex := 0
  const DefaultPageSize := 10

  /** The query built from no arguments. */
  const Default := FindQuery(DefaultPageIndex, DefaultPageSize, "", "")

  /** The message `validate_pagination` raises with; the placeholder is never
      formatted. */
  const NegativeMessage := "value must not be less than {default_value}"

  const SupportedOperators: seq<string> := ["eq", "ne", "in", "nin", "gt", "lt", "gte", "lte", "&&", "||", "<", ">"]

  /** A query the validators accept. */
  predicate Valid(q: FindQuery) {
    q.pageIndex >= 0 && q.pageSize >= 0
  }

  /** `validate_pagination`, run for `page_index` and for `page_size`. */
  function ValidatePagination(value: int): (r: Result<int>)
    ensures r.Ok? <==> value >= 0
    ensures r.Ok? ==> r.value == value
    ensures r.Err? ==> r.error == ValueError(NegativeMessage)
  {
    if value < 0 then Err(ValueError(NegativeMessage)) else Ok(value)
  }

  /** The comprehension of `validate_filter`: iterating a string yields its
      characters, so only a one-character operator can be collected. */
  function CollectOperators(s: string): (ops: seq<string>)
    ensures forall i :: 0 <= i < |ops| ==> ops[i] in SupportedOperators
    ensures forall i :: 0 <= i < |ops| ==> ops[i] == "<" || ops[i] == ">"
    ensures ('<' !in s && '>' !in s) ==> ops == []
  {
    if |s| == 0 then []
    else
      assert forall c :: c in s[1..] ==> c in s;
      var word := [s[0]];
      var head := if word in SupportedOperators then [word] else [];
      assert word in SupportedOperators ==> word == "<" || word == ">" by {
        if word in SupportedOperators {
          var k :| 0 <= k < |SupportedOperators| && SupportedOperators[k] == word;
          assert |SupportedOperators[k]| == 1;
          assert k == 10 || k == 11;
        }
      }
      head + CollectOperators(s[1..])
  }

  /** Python's `str` of a list of strings. */
  function ListRepr(items: seq<string>): string {
    "[" + ListItems(items) + "]"
  }

  function ListItems(items: seq<string>): string {
    if |items| == 0 then ""
    else if |items| == 1 then "'" + items[0] + "'"
    else "'" + items[0] + "', " + ListItems(items[1..])
  }

  /** `validate_filter`: every collected operator is in the supported list
      by construction, so the loop never raises and the filter is returned
      as given. */
  function ValidateFilter(value: string): (r: Result<string>)
    ensures r == Ok(value)
  {
    var operators := CollectOperators(Strip(value));
    if exists i :: 0 <= i < |operators| && operators[i] !in SupportedOperators then
      Err(ValueError("Unsupported operator: " + ListRepr(operators)))
    else
      Ok(value)
  }

  /** `FindQuery(page_index=..., page_size=..., filter=..., order_by=...)`:
      pydantic runs every validator and reports the fields that failed,
      named in declaration order, in one ValidationError. */
  function NewFindQuery(pageIndex: int, pageSize: int, filter: string, orderBy: string): (r: Result<FindQuery>)
    ensures r.Ok? <==> pageIndex >= 0 && pageSize >= 0
    ensures r.Ok? ==> r.value == FindQuery(pageIndex, pageSize, filter, orderBy) && Valid(r.value)
    ensures pageIndex < 0 && pageSize >= 0 ==> r == Err(ValidationError("page_index"))
    ensures pageIndex >= 0 && pageSize < 0 ==> r == Err(ValidationError("page_size"))
    ensures pageIndex < 0 && pageSize < 0 ==> r == Err(ValidationError("page_index, page_size"))
  {
    var index := ValidatePagination(pageIndex);
    var size := ValidatePagination(pageSize);
    var filtered := ValidateFilter(filter);
    if index.Err? && size.Err? then Err(ValidationError("page_index, page_size"))
    else if index.Err? then Err(ValidationError("page_index"))
    else if size.Err? then Err(ValidationError("page_size"))
    else Ok(FindQuery(index.value, size.value, filtered.value, orderBy))
  }

  /** The defaults pass their own validators. */
  lemma DefaultIsValid()
    ensures NewFindQuery(DefaultPageIndex, DefaultPageSize, "", "") == Ok(Default)
  {
  }

  /** Construction keeps the given fields. */
  lemma ConstructionKeepsFields()
    ensures NewFindQuery(1, 10, "name eq John", "name") == Ok(FindQuery(1, 10, "name eq John", "name"))
  {
  }

  /** The filter is never rejected, whatever operators it spells. */
  lemma FilterNeverRejected(pageIndex: int, pageSize: int, filter: string, orderBy: string)
    ensures NewFindQuery(pageIndex, pageSize, filter, orderBy).Ok?
      == NewFindQuery(pageIndex, pageSize, "", orderBy).Ok?
  {
  }

  /** `skip`: the number of records before the page, which is none on the
      first page. */
  function Skip(q: FindQuery): (n: int)
    ensures Valid(q) ==> n >= 0
    ensures Valid(q) && q.pageIndex > 0 ==> n >= q.pageSize
    ensures q.pageIndex == 0 ==> n == 0
  {
    q.pageIndex * q.pageSize
  }

  /** `limit`: the number of records on the page, the page size. */
  function Limit(q: FindQuery): (n: int)
    ensures Valid(q) ==> n >= 0
    ensures n == q.pageSize
  {
    q.pageSize
  }

  /** The records before a page are the full pages before it: `skip` is
      `page_index` pages of `limit` records each. */
  lemma {:induction false} SkipCountsEarlierPages(q: FindQuery)
    requires Valid(q)
    ensures Skip(q) == q.pageIndex * Limit(q)
    decreases q.pageIndex
  {
    if q.pageIndex > 0 {
      var previous := q.(pageIndex := q.pageIndex - 1);
      SkipCountsEarlierPages(previous);
      NextPageFollows(previous);
      assert q == previous.(pageIndex := previous.pageIndex + 1);
    }
  }

  /** Consecutive pages of the same size tile the records: the next page
      starts where this one ends. */
  lemma NextPageFollows(q: FindQuery)
    requires Valid(q)
    ensures Skip(q.(pageIndex := q.pageIndex + 1)) == Skip(q) + Limit(q)
  {
  }

  /** Distinct pages of a positive size do not overlap. */
  lemma PagesDisjoint(q: FindQuery, p: FindQuery)
    requires Valid(q) && Valid(p) && q.pageSize == p.pageSize && q.pageSize > 0
    requires q.pageIndex < p.pageIndex
    ensures Skip(q) + Limit(q) <= Skip(p)
  {
    var gap := p.pageIndex - q.pageIndex - 1;
    assert gap >= 0;
    assert p.pageIndex * q.pageSize == (q.pageIndex + 1) * q.pageSize + gap * q.pageSize;
    assert gap * q.pageSize >= 0;
  }
}
