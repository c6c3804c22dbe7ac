/**
 * The candidate management dashboard: who may open it, how a listing
 * request becomes the count query and the page query, the pagination
 * arithmetic and page links around the result table, and the two quick
 * actions that change a row's status or delete it.
 */
module Dashboard {
  import opened Php
  import opened Store

  /** The dashboard (and the detail view) is for admins and super admins
      only; a session without a role is turned away like any other. */
  predicate CanManage(role: Option<string>) {
    role == Some("admin") || role == Some("super_admin")
  }

  // ---------------------------------------------------------------------
  // Pagination
  // ---------------------------------------------------------------------

  /** Records per page. */
  const Limit: nat := 20

  function Max(a: int, b: int): int { if a >= b then a else b }
  function Min(a: int, b: int): int { if a <= b then a else b }

  /** PHP's largest integer on a 64-bit build. */
  const PhpIntMax: int := 0x7FFF_FFFF_FFFF_FFFF

  /** `$page`: `requested` is the integer the page text denotes; `(int)`
      saturates it at `PhpIntMax`, and `max(1, ...)` raises it to 1 when it
      is below 1; a request without a page is on page 1. */
  function ClampPage(requested: Option<int>): (page: int)
    ensures 1 <= page <= PhpIntMax
    ensures requested.None? ==> page == 1
    ensures requested.Some? && requested.value <= PhpIntMax ==> page == Max(1, requested.value)
    ensures requested.Some? && requested.value > PhpIntMax ==> page == PhpIntMax
  {
    if requested.Some? then Max(1, Min(requested.value, PhpIntMax)) else 1
  }

  /** `$start`: how many matching rows the pages before `page` hold. */
  function Offset(page: int): (start: nat)
    requires page >= 1
  {
    (page - 1) * Limit
  }

  /** The last page whose offset still fits in a PHP integer. */
  const MaxFittingPage: int := PhpIntMax / Limit + 1

  /** `$start` as PHP computes it: the exact offset while the product fits
      in 64 bits; past `PhpIntMax` the product becomes a float, which is
      `None` here. */
  function PhpOffset(page: int): (start: Option<nat>)
    requires page >= 1
  {
    if (page - 1) * Limit <= PhpIntMax then Some(Offset(page)) else None
  }

  /** The offset is the first row of the page: a whole number of full
      pages, one fewer than the page number. PHP computes it exactly up to
      page `MaxFittingPage`, and as a float for every later page; up to
      there it grows by one page of rows per page. */
  lemma OffsetSpec(page: int)
    requires page >= 1
    ensures Offset(page) % Limit == 0 && Offset(page) / Limit == page - 1
    ensures Offset(page + 1) == Offset(page) + Limit
    ensures PhpOffset(page).Some? <==> page <= MaxFittingPage
    ensures PhpOffset(page).Some? ==> PhpOffset(page).value == Offset(page) <= PhpIntMax
    ensures PhpOffset(page + 1).Some? ==>
              PhpOffset(page).Some? && PhpOffset(page + 1).value == PhpOffset(page).value + Limit
  {
    assert (MaxFittingPage - 1) * Limit <= PhpIntMax < MaxFittingPage * Limit;
  }

  /** `$total_pages`: `ceil($total_records / $limit)`. */
  function TotalPages(total: nat): (pages: nat)
  {
    (total + Limit - 1) / Limit
  }

  /** The page count is the least number of pages that hold `total` rows:
      the last page is not empty, and there is no page at all for no rows. */
  lemma TotalPagesSpec(total: nat)
    ensures (TotalPages(total) - 1) * Limit < total <= TotalPages(total) * Limit
    ensures TotalPages(total) == 0 <==> total == 0
  {
  }

  /** The number of rows `LIMIT start, 20` returns out of `total` matches. */
  function PageSize(start: nat, total: nat): (n: nat)
    ensures n <= Limit
    ensures n == 0 <==> start >= total
  {
    if start >= total then 0 else Min(Limit, total - start)
  }

  /** The "Showing first-last of total candidates" line. */
  datatype Showing = Showing(first: int, last: int, total: nat)

  function ShowingFor(start: nat, total: nat): (s: Showing)
    ensures s.first <= s.total && s.last <= s.total
    ensures s.first >= 0 && s.first <= s.last
  {
    Showing(Min(start + 1, total), Min(start + Limit, total), total)
  }

  /** On a page that has rows, the line names exactly those rows: it
      starts at the row after the offset and counts the page's rows. */
  lemma ShowingCountsPage(start: nat, total: nat)
    requires start < total
    ensures ShowingFor(start, total).first == start + 1
    ensures ShowingFor(start, total).last - ShowingFor(start, total).first + 1
            == PageSize(start, total)
  {
  }

  /** A page past the last one has no rows, and its line reads
      "total-total of total"; that is what PHP shows as long as the
      page's offset fits in an integer (beyond, the page query fails, see
      `PrepareListing`). */
  lemma PagePastEndIsEmpty(page: int, total: nat)
    requires page > TotalPages(total)
    ensures PageSize(Offset(page), total) == 0
    ensures ShowingFor(Offset(page), total) == Showing(total, total, total)
    ensures PhpOffset(page).Some? ==> PageSize(PhpOffset(page).value, total) == 0
  {
    TotalPagesSpec(total);
    assert Offset(page) >= TotalPages(total) * Limit;
  }

  /** Every existing page (1 to `TotalPages`) holds at least one row. */
  lemma ExistingPageIsNotEmpty(page: int, total: nat)
    requires 1 <= page <= TotalPages(total)
    ensures PageSize(Offset(page), total) > 0
  {
    TotalPagesSpec(total);
    assert Offset(page) <= (TotalPages(total) - 1) * Limit;
  }

  // ---------------------------------------------------------------------
  // Page links
  // ---------------------------------------------------------------------

  /** The consecutive page numbers from `lo` to `hi`; none when `lo > hi`. */
  function Span(lo: int, hi: int): (r: seq<int>)
    ensures |r| == Max(0, hi - lo + 1)
    ensures forall k :: 0 <= k < |r| ==> r[k] == lo + k
    decreases hi - lo
  {
    if lo > hi then [] else Span(lo, hi - 1) + [hi]
  }

  /** The numbered links: up to two pages either side of the current
      one, cut off at page 1 and at the last page. */
  function LinkWindow(page: int, totalPages: int): seq<int> {
    Span(Max(1, page - 2), Min(totalPages, page + 2))
  }

  /** The `for` loop that writes the numbered page links. */
  method PageLinks(page: int, totalPages: int) returns (links: seq<int>)
    ensures links == LinkWindow(page, totalPages)
  {
    var lo := Max(1, page - 2);
    var hi := Min(totalPages, page + 2);
    links := [];
    var i := lo;
    while i <= hi
      invariant lo <= i <= Max(lo, hi + 1)
      invariant links == Span(lo, i - 1)
      decreases hi - i
    {
      links := links + [i];
      i := i + 1;
    }
  }

  /** Every link leads to an existing page, there are at most five, they
      count up one by one, and the current page is among them exactly when
      it exists. */
  lemma LinkWindowSpec(page: int, totalPages: int)
    requires page >= 1
    ensures var links := LinkWindow(page, totalPages);
            && (forall i :: i in links ==> 1 <= i <= totalPages)
            && |links| <= 5
            && (forall k :: 0 < k < |links| ==> links[k] == links[k - 1] + 1)
            && (page in links <==> page <= totalPages)
  {
    var links := LinkWindow(page, totalPages);
    if page <= totalPages {
      assert links[page - Max(1, page - 2)] == page;
    }
  }

  /** The pagination bar below the table. */
  datatype Pager =
    | NoPager
    | Bar(previousDisabled: bool, previousPage: int, links: seq<int>,
          nextDisabled: bool, nextPage: int)

  function PagerFor(page: int, totalPages: int): (p: Pager) {
    if totalPages > 1 then
      Bar(page <= 1, page - 1, LinkWindow(page, totalPages), page >= totalPages, page + 1)
    else NoPager
  }

  /** The bar appears only when there is more than one page; Previous is
      greyed out on the first page and Next on the last, and a page past
      the end greys out Next but still links back. */
  lemma PagerSpec(page: int, total: nat)
    requires page >= 1
    ensures var p := PagerFor(page, TotalPages(total));
            && (p.Bar? <==> total > Limit)
            && (p.Bar? ==> (p.previousDisabled <==> page == 1))
            && (p.Bar? ==> (p.nextDisabled <==> PageSize(Offset(page) + Limit, total) == 0))
            && (p.Bar? && !p.previousDisabled ==> p.previousPage >= 1)
  {
    TotalPagesSpec(total);
    var tp := TotalPages(total);
    if tp > 1 {
      assert Offset(page) + Limit == page * Limit;
      if page < tp {
        assert page * Limit <= (tp - 1) * Limit;
      }
    }
  }

  // ---------------------------------------------------------------------
  // Filters
  // ---------------------------------------------------------------------

  /** The query string of a listing request; each field may be missing. */
  datatype ListingRequest = ListingRequest(
    page: Option<int>,
    search: Option<string>,
    jobCategory: Option<string>,
    experienceRange: Option<string>,
    status: Option<string>,
    dateFrom: Option<string>,
    dateTo: Option<string>)

  /** One filter and the text it was given. */
  datatype Criterion =
    | Search(term: string)
    | CategoryIs(category: string)
    | ExperienceIs(range: string)
    | StatusIs(status: string)
    | CreatedFrom(date: string)
    | CreatedTo(date: string)
  {
    function Text(): string {
      match this
      case Search(t) => t
      case CategoryIs(t) => t
      case ExperienceIs(t) => t
      case StatusIs(t) => t
      case CreatedFrom(t) => t
      case CreatedTo(t) => t
    }

    /** The position of the filter's block in the page, 0 to 5. */
    function Rank(): nat {
      match this
      case Search(_) => 0
      case CategoryIs(_) => 1
      case ExperienceIs(_) => 2
      case StatusIs(_) => 3
      case CreatedFrom(_) => 4
      case CreatedTo(_) => 5
    }

    /** The condition fragment the filter adds to the WHERE clause,
        written around its `?` placeholders. */
    function Condition(): string {
      match this
      case Search(_) => "(full_name LIKE " + "?" + " OR phone_number LIKE " + "?" + ")"
      case CategoryIs(_) => "job_category = " + "?"
      case ExperienceIs(_) => "experience_range = " + "?"
      case StatusIs(_) => "status = " + "?"
      case CreatedFrom(_) => "DATE(created_at) >= " + "?"
      case CreatedTo(_) => "DATE(created_at) <= " + "?"
    }

    /** The values bound to the fragment's placeholders: the search term,
        wrapped in `%`, for both name and phone; the text itself otherwise. */
    function Bindings(): seq<string> {
      if Search? then ["%" + term + "%", "%" + term + "%"] else [Text()]
    }

    /** One type letter per bound value, each `s` (string). */
    function Types(): string {
      if Search? then "ss" else "s"
    }
  }

  /** The six filters in the order the page examines them. */
  function SlotsOf(search: string, category: string, experience: string, status: string,
                   dateFrom: string, dateTo: string): seq<Criterion>
  {
    [Search(search), CategoryIs(category), ExperienceIs(experience), StatusIs(status),
     CreatedFrom(dateFrom), CreatedTo(dateTo)]
  }

  /** The filters of a request: the text ones trimmed, the two dates as
      given, a missing one as "". */
  function Slots(q: ListingRequest): seq<Criterion> {
    SlotsOf(Trim(q.search.OrElse("")), Trim(q.jobCategory.OrElse("")),
            Trim(q.experienceRange.OrElse("")), Trim(q.status.OrElse("")),
            q.dateFrom.OrElse(""), q.dateTo.OrElse(""))
  }

  /** Filters listed in the page's order, each kind at most once. */
  predicate InOrder(cs: seq<Criterion>) {
    forall i, j :: 0 <= i < j < |cs| ==> cs[i].Rank() < cs[j].Rank()
  }

  /** `c` alone if it is in effect (its text is not `empty()`), else nothing. */
  function Keep(c: Criterion): seq<Criterion> {
    if IsEmpty(c.Text()) then [] else [c]
  }

  /** The filters that are not `empty()`, in order. */
  function Active(slots: seq<Criterion>): seq<Criterion> {
    if slots == [] then [] else Active(slots[..|slots| - 1]) + Keep(slots[|slots| - 1])
  }

  /** The filters in effect for a request. */
  function Criteria(q: ListingRequest): seq<Criterion> {
    Active(Slots(q))
  }

  function ConditionsOf(cs: seq<Criterion>): seq<string> {
    if cs == [] then [] else ConditionsOf(cs[..|cs| - 1]) + [cs[|cs| - 1].Condition()]
  }

  function ParamsOf(cs: seq<Criterion>): seq<string> {
    if cs == [] then [] else ParamsOf(cs[..|cs| - 1]) + cs[|cs| - 1].Bindings()
  }

  function TypesOf(cs: seq<Criterion>): string {
    if cs == [] then "" else TypesOf(cs[..|cs| - 1]) + cs[|cs| - 1].Types()
  }

  /** In an ordered list every element before the last ranks below it.
      `Registration.PrefixRanksBelowLast` is the same fact for the
      registration checks; sharing one lemma would need the rank and the
      order as function parameters. */
  lemma PrefixRanksBelowLast(cs: seq<Criterion>)
    requires cs != [] && InOrder(cs)
    ensures forall c :: c in cs[..|cs| - 1] ==> c.Rank() < cs[|cs| - 1].Rank()
  {
    forall c | c in cs[..|cs| - 1] ensures c.Rank() < cs[|cs| - 1].Rank() {
      var k :| 0 <= k < |cs| - 1 && cs[..|cs| - 1][k] == c;
      assert cs[k] == c;
    }
  }

  /** A filter is in effect exactly when its text is not `empty()`. */
  lemma {:induction false} ActiveMembers(slots: seq<Criterion>)
    ensures forall c :: c in Active(slots) <==> c in slots && !IsEmpty(c.Text())
  {
    if slots != [] {
      var init := slots[..|slots| - 1];
      ActiveMembers(init);
      assert slots == init + [slots[|slots| - 1]];
    }
  }

  /** No more filters are in effect than were examined. */
  lemma {:induction false} ActiveLength(slots: seq<Criterion>)
    ensures |Active(slots)| <= |slots|
  {
    if slots != [] {
      ActiveLength(slots[..|slots| - 1]);
    }
  }

  /** The filters in effect keep the order in which they were examined. */
  lemma {:induction false} ActiveInOrder(slots: seq<Criterion>)
    requires InOrder(slots)
    ensures InOrder(Active(slots))
  {
    if slots != [] {
      var init := slots[..|slots| - 1];
      var last := slots[|slots| - 1];
      assert InOrder(init);
      ActiveInOrder(init);
      ActiveMembers(init);
      PrefixRanksBelowLast(slots);
      assert forall c :: c in Active(init) ==> c.Rank() < last.Rank();
    }
  }

  /** The six slots are listed in the page's order. */
  lemma SlotsInOrder(search: string, category: string, experience: string, status: string,
                     dateFrom: string, dateTo: string)
    ensures var slots := SlotsOf(search, category, experience, status, dateFrom, dateTo);
            |slots| == 6 && InOrder(slots)
  {
    var slots := SlotsOf(search, category, experience, status, dateFrom, dateTo);
    forall i, j | 0 <= i < j < |slots| ensures slots[i].Rank() < slots[j].Rank() {
      assert slots[i].Rank() == i && slots[j].Rank() == j;
    }
  }

  /** Each non-empty filter of the request adds exactly one criterion,
      empty ones (and "0") add none, and they come in the fixed order search,
      category, experience, status, from-date, to-date. */
  lemma CriteriaSpec(q: ListingRequest)
    ensures forall c :: c in Criteria(q) <==> c in Slots(q) && !IsEmpty(c.Text())
    ensures InOrder(Criteria(q)) && |Criteria(q)| <= 6
  {
    var slots := Slots(q);
    SlotsInOrder(Trim(q.search.OrElse("")), Trim(q.jobCategory.OrElse("")),
                 Trim(q.experienceRange.OrElse("")), Trim(q.status.OrElse("")),
                 q.dateFrom.OrElse(""), q.dateTo.OrElse(""));
    ActiveMembers(slots);
    ActiveLength(slots);
    ActiveInOrder(slots);
  }

  /** Examining one more filter adds it when it is not `empty()`. */
  lemma ActiveStep(slots: seq<Criterion>, k: nat)
    requires k < |slots|
    ensures Active(slots[..k + 1]) == Active(slots[..k]) + Keep(slots[k])
  {
    assert slots[..k + 1][..k] == slots[..k];
  }

  /** Adding a filter adds its condition, its values and its type letters. */
  lemma AppendOne(cs: seq<Criterion>, c: Criterion)
    ensures ConditionsOf(cs + [c]) == ConditionsOf(cs) + [c.Condition()]
    ensures ParamsOf(cs + [c]) == ParamsOf(cs) + c.Bindings()
    ensures TypesOf(cs + [c]) == TypesOf(cs) + c.Types()
  {
    assert (cs + [c])[..|cs|] == cs;
  }

  /** There are as many type letters as values, and every one is `s`:
      search contributes two, every other filter one. */
  lemma {:induction false} ParamsSpec(cs: seq<Criterion>)
    ensures |ParamsOf(cs)| == |TypesOf(cs)|
    ensures forall i :: 0 <= i < |TypesOf(cs)| ==> TypesOf(cs)[i] == 's'
  {
    if cs != [] {
      ParamsSpec(cs[..|cs| - 1]);
    }
  }

  /** A fragment of plain SQL followed by one placeholder. */
  lemma TrailingHole(a: string)
    requires '?' !in a
    ensures Occurrences(a + "?", '?') == 1
  {
    NoOccurrences(a, '?');
    OccurrencesAppend(a, "?", '?');
  }

  /** A fragment with one placeholder between two pieces of plain SQL. */
  lemma OneHole(a: string, b: string)
    requires '?' !in a && '?' !in b
    ensures Occurrences(a + "?" + b, '?') == 1
  {
    TrailingHole(a);
    NoOccurrences(b, '?');
    OccurrencesAppend(a + "?", b, '?');
  }

  /** A fragment with two placeholders among three pieces of plain SQL. */
  lemma TwoHoles(a: string, b: string, c: string)
    requires '?' !in a && '?' !in b && '?' !in c
    ensures Occurrences(a + "?" + b + "?" + c, '?') == 2
  {
    OneHole(a, b);
    NoOccurrences(c, '?');
    OccurrencesAppend(a + "?" + b, "?", '?');
    OccurrencesAppend(a + "?" + b + "?", c, '?');
  }

  lemma SearchConditionHoles(term: string)
    ensures Occurrences(Search(term).Condition(), '?') == 2
  {
    TwoHoles("(full_name LIKE ", " OR phone_number LIKE ", ")");
  }

  lemma CategoryConditionHoles(t: string)
    ensures Occurrences(CategoryIs(t).Condition(), '?') == 1
  {
    assert CategoryIs(t).Condition() == "job_category = " + "?";
    TrailingHole("job_category = ");
  }

  lemma ExperienceConditionHoles(t: string)
    ensures Occurrences(ExperienceIs(t).Condition(), '?') == 1
  {
    assert ExperienceIs(t).Condition() == "experience_range = " + "?";
    TrailingHole("experience_range = ");
  }

  lemma StatusConditionHoles(t: string)
    ensures Occurrences(StatusIs(t).Condition(), '?') == 1
  {
    assert StatusIs(t).Condition() == "status = " + "?";
    TrailingHole("status = ");
  }

  lemma FromConditionHoles(t: string)
    ensures Occurrences(CreatedFrom(t).Condition(), '?') == 1
  {
    assert CreatedFrom(t).Condition() == "DATE(created_at) >= " + "?";
    TrailingHole("DATE(created_at) >= ");
  }

  lemma ToConditionHoles(t: string)
    ensures Occurrences(CreatedTo(t).Condition(), '?') == 1
  {
    assert CreatedTo(t).Condition() == "DATE(created_at) <= " + "?";
    TrailingHole("DATE(created_at) <= ");
  }

  /** Each condition fragment has exactly as many `?` as the filter binds values. */
  lemma PlaceholdersOfOne(c: Criterion)
    ensures Occurrences(c.Condition(), '?') == |c.Bindings()|
  {
    if c.Search? {
      assert |c.Bindings()| == 2;
      SearchConditionHoles(c.term);
    } else {
      assert |c.Bindings()| == 1;
      match c
      case CategoryIs(t) => CategoryConditionHoles(t);
      case ExperienceIs(t) => ExperienceConditionHoles(t);
      case StatusIs(t) => StatusConditionHoles(t);
      case CreatedFrom(t) => FromConditionHoles(t);
      case CreatedTo(t) => ToConditionHoles(t);
    }
  }

  /** Across all filters in effect, the conditions hold one `?` per value. */
  lemma {:induction false} PlaceholdersOfAll(cs: seq<Criterion>)
    ensures OccurrencesIn(ConditionsOf(cs), '?') == |ParamsOf(cs)|
  {
    if cs != [] {
      var init := cs[..|cs| - 1];
      var last := cs[|cs| - 1];
      PlaceholdersOfAll(init);
      PlaceholdersOfOne(last);
      OccurrencesInAppend(ConditionsOf(init), last.Condition(), '?');
    }
  }

  /** One `if (!empty(...))` block of the filter builder. */
  method AddFilter(conditions: seq<string>, params: seq<string>, types: string, c: Criterion)
    returns (conditions': seq<string>, params': seq<string>, types': string)
    ensures IsEmpty(c.Text()) ==> conditions' == conditions && params' == params && types' == types
    ensures !IsEmpty(c.Text()) ==>
              && conditions' == conditions + [c.Condition()]
              && params' == params + c.Bindings()
              && types' == types + c.Types()
  {
    conditions', params', types' := conditions, params, types;
    if !IsEmpty(c.Text()) {
      conditions' := conditions' + [c.Condition()];
      params' := params' + c.Bindings();
      types' := types' + c.Types();
    }
  }

  /** The conditions, values and type letters of the filters in slots 0 to k-1. */
  ghost predicate BuiltUpTo(slots: seq<Criterion>, k: nat, conditions: seq<string>, params: seq<string>, types: string)
    requires k <= |slots|
  {
    && conditions == ConditionsOf(Active(slots[..k]))
    && params == ParamsOf(Active(slots[..k]))
    && types == TypesOf(Active(slots[..k]))
  }

  /** One more block keeps the builder's lists equal to the specification. */
  lemma AddFilterStep(slots: seq<Criterion>, k: nat, c: Criterion,
                      conditions: seq<string>, params: seq<string>, types: string,
                      conditions': seq<string>, params': seq<string>, types': string)
    requires k < |slots| && slots[k] == c && BuiltUpTo(slots, k, conditions, params, types)
    requires IsEmpty(c.Text()) ==> conditions' == conditions && params' == params && types' == types
    requires !IsEmpty(c.Text()) ==>
               && conditions' == conditions + [c.Condition()]
               && params' == params + c.Bindings()
               && types' == types + c.Types()
    ensures BuiltUpTo(slots, k + 1, conditions', params', types')
  {
    ActiveStep(slots, k);
    if IsEmpty(c.Text()) {
      assert Active(slots[..k + 1]) == Active(slots[..k]);
    } else {
      assert Active(slots[..k + 1]) == Active(slots[..k]) + [c];
      AppendOne(Active(slots[..k]), c);
    }
  }

  /** The filter builder, given the six filter values as the page has
      read them: each of the six blocks, taken in the page's order, appends
      the filter's condition, values and type letters unless its value is
      `empty()`. */
  method BuildFilter(search: string, jobCategory: string, experience: string, status: string,
                     dateFrom: string, dateTo: string)
    returns (conditions: seq<string>, params: seq<string>, types: string)
    ensures var cs := Active(SlotsOf(search, jobCategory, experience, status, dateFrom, dateTo));
            conditions == ConditionsOf(cs) && params == ParamsOf(cs) && types == TypesOf(cs)
  {
    var slots := SlotsOf(search, jobCategory, experience, status, dateFrom, dateTo);
    conditions, params, types := [], [], "";
    assert slots[..0] == [];
    for k := 0 to |slots|
      invariant BuiltUpTo(slots, k, conditions, params, types)
    {
      var c, p, t := AddFilter(conditions, params, types, slots[k]);
      AddFilterStep(slots, k, slots[k], conditions, params, types, c, p, t);
      conditions, params, types := c, p, t;
    }
    assert slots[..|slots|] == slots;
  }

  /** `$where_clause`: nothing without filters, else the conditions joined by AND. */
  function WhereClause(conditions: seq<string>): string {
    if conditions == [] then "" else "WHERE " + Implode(" AND ", conditions)
  }

  lemma AndIsPlain()
    ensures Occurrences(" AND ", '?') == 0
  {
    NoOccurrences(" AND ", '?');
  }

  lemma WhereIsPlain()
    ensures Occurrences("WHERE ", '?') == 0
  {
    NoOccurrences("WHERE ", '?');
  }

  /** Joined conditions, behind "WHERE ", hold as many `?` as the conditions do. */
  lemma WhereClauseHoles(conditions: seq<string>)
    ensures Occurrences(WhereClause(conditions), '?') == OccurrencesIn(conditions, '?')
  {
    AndIsPlain();
    ImplodeOccurrences(" AND ", conditions, '?');
    if conditions != [] {
      WhereIsPlain();
      OccurrencesAppend("WHERE ", Implode(" AND ", conditions), '?');
    }
  }

  /** The clause is empty exactly when no filter is in effect, and holds
      one `?` per bound value. */
  lemma WhereClauseSpec(cs: seq<Criterion>)
    ensures WhereClause(ConditionsOf(cs)) == "" <==> cs == []
    ensures Occurrences(WhereClause(ConditionsOf(cs)), '?') == |ParamsOf(cs)|
  {
    var conditions := ConditionsOf(cs);
    PlaceholdersOfAll(cs);
    WhereClauseHoles(conditions);
    if cs != [] {
      assert conditions != [];
    }
  }

  /** A prepared statement: its SQL text and what is bound to it. */
  datatype Statement = Statement(sql: string, params: seq<string>, types: string)

  /** The total-count query. */
  function CountSql(where: string): string {
    "SELECT COUNT(*) as total FROM candidates " + where
  }

  /** The page query, newest first, `Limit` rows from the offset. */
  function PageSql(where: string, start: nat): string {
    "SELECT * FROM candidates " + where + " ORDER BY created_at DESC LIMIT "
      + Decimal(start) + ", " + Decimal(Limit)
  }

  /** A number written out holds no `?`. */
  lemma DecimalHasNoPlaceholder(n: nat)
    ensures Occurrences(Decimal(n), '?') == 0
  {
    assert '?' !in Decimal(n);
    NoOccurrences(Decimal(n), '?');
  }

  /** The fixed parts of the two queries hold no placeholder. */
  lemma CountHeadIsPlain()
    ensures Occurrences("SELECT COUNT(*) as total FROM candidates ", '?') == 0
  {
    NoOccurrences("SELECT COUNT(*) as total FROM candidates ", '?');
  }

  lemma PageHeadIsPlain()
    ensures Occurrences("SELECT * FROM candidates ", '?') == 0
  {
    NoOccurrences("SELECT * FROM candidates ", '?');
  }

  lemma PageOrderIsPlain()
    ensures Occurrences(" ORDER BY created_at DESC LIMIT ", '?') == 0
  {
    NoOccurrences(" ORDER BY created_at DESC LIMIT ", '?');
  }

  lemma CommaIsPlain()
    ensures Occurrences(", ", '?') == 0
  {
    NoOccurrences(", ", '?');
  }

  /** The count query adds no placeholder of its own to the where clause. */
  lemma CountSqlHoles(where: string)
    ensures Occurrences(CountSql(where), '?') == Occurrences(where, '?')
  {
    CountHeadIsPlain();
    OccurrencesAppend("SELECT COUNT(*) as total FROM candidates ", where, '?');
  }

  /** The page query's text around its offset and limit adds no `?`. */
  lemma PageTextHoles(where: string, offset: string, limit: string)
    requires Occurrences(offset, '?') == 0 && Occurrences(limit, '?') == 0
    ensures Occurrences("SELECT * FROM candidates " + where + " ORDER BY created_at DESC LIMIT "
                        + offset + ", " + limit, '?') == Occurrences(where, '?')
  {
    var head, order, comma := "SELECT * FROM candidates ", " ORDER BY created_at DESC LIMIT ", ", ";
    PageHeadIsPlain();
    PageOrderIsPlain();
    CommaIsPlain();
    OccurrencesAppend(head, where, '?');
    OccurrencesAppend(head + where, order, '?');
    OccurrencesAppend(head + where + order, offset, '?');
    OccurrencesAppend(head + where + order + offset, comma, '?');
    OccurrencesAppend(head + where + order + offset + comma, limit, '?');
  }

  /** Nor does the page query, whose offset and limit are written as numbers. */
  lemma PageSqlHoles(where: string, start: nat)
    ensures Occurrences(PageSql(where, start), '?') == Occurrences(where, '?')
  {
    DecimalHasNoPlaceholder(start);
    DecimalHasNoPlaceholder(Limit);
    PageTextHoles(where, Decimal(start), Decimal(Limit));
  }

  /** The count statement of the filters `cs`. */
  function CountStatement(cs: seq<Criterion>): Statement {
    Statement(CountSql(WhereClause(ConditionsOf(cs))), ParamsOf(cs), TypesOf(cs))
  }

  /** The page statement of the filters `cs`, from row `start`. */
  function PageStatement(cs: seq<Criterion>, start: nat): Statement {
    Statement(PageSql(WhereClause(ConditionsOf(cs)), start), ParamsOf(cs), TypesOf(cs))
  }

  /** A statement whose placeholders, values and type letters agree in
      number, every type letter being `s`: `bind_param` accepts it. */
  predicate WellBound(st: Statement) {
    && Occurrences(st.sql, '?') == |st.params| == |st.types|
    && forall i :: 0 <= i < |st.types| ==> st.types[i] == 's'
  }

  /** The count query is well bound. */
  lemma CountStatementSpec(cs: seq<Criterion>)
    ensures WellBound(CountStatement(cs))
  {
    WhereClauseSpec(cs);
    ParamsSpec(cs);
    CountSqlHoles(WhereClause(ConditionsOf(cs)));
  }

  /** The page query is well bound. */
  lemma PageStatementWellBound(cs: seq<Criterion>, start: nat)
    ensures WellBound(PageStatement(cs, start))
  {
    var where := WhereClause(ConditionsOf(cs));
    WhereClauseSpec(cs);
    ParamsSpec(cs);
    PageSqlHoles(where, start);
  }

  /** The page query binds the same values as the count query, and is
      well bound too. */
  lemma PageStatementSpec(cs: seq<Criterion>, start: nat)
    ensures PageStatement(cs, start).params == CountStatement(cs).params
    ensures PageStatement(cs, start).types == CountStatement(cs).types
    ensures WellBound(PageStatement(cs, start))
  {
    assert PageStatement(cs, start).params == ParamsOf(cs) == CountStatement(cs).params;
    assert PageStatement(cs, start).types == TypesOf(cs) == CountStatement(cs).types;
    PageStatementWellBound(cs, start);
  }

  /** What the page does with a listing request. */
  datatype Listing =
    | SentHome                                    // not an admin: redirected to the home page
    | Listed(count: Statement, list: Statement)   // the count and page statements
    | PageQueryFails(count: Statement)            // the offset overflowed: the page query does not parse

  /** The statements for page `page` and the six filter values as the
      page has read them. */
  method ListFiltered(page: int, search: string, jobCategory: string, experience: string,
                      status: string, dateFrom: string, dateTo: string)
    returns (listing: Listing)
    requires page >= 1
    ensures var cs := Active(SlotsOf(search, jobCategory, experience, status, dateFrom, dateTo));
            && (PhpOffset(page).Some? ==> listing == Listed(CountStatement(cs), PageStatement(cs, Offset(page))))
            && (PhpOffset(page).None? ==> listing == PageQueryFails(CountStatement(cs)))
  {
    var conditions, params, types := BuildFilter(search, jobCategory, experience, status, dateFrom, dateTo);
    var where := WhereClause(conditions);
    var count := Statement(CountSql(where), params, types);
    var start := PhpOffset(page);
    if start.Some? {
      listing := Listed(count, Statement(PageSql(where, start.value), params, types));
    } else {
      listing := PageQueryFails(count);
    }
  }

  /** A listing request: the role gate, then the count statement of its
      filters in effect and the page statement from its clamped page's
      offset, unless that offset is no longer an integer. */
  method PrepareListing(role: Option<string>, q: ListingRequest) returns (listing: Listing)
    ensures listing == SentHome <==> !CanManage(role)
    ensures CanManage(role) && PhpOffset(ClampPage(q.page)).Some? ==>
              listing == Listed(CountStatement(Criteria(q)), PageStatement(Criteria(q), Offset(ClampPage(q.page))))
    ensures CanManage(role) && PhpOffset(ClampPage(q.page)).None? ==>
              listing == PageQueryFails(CountStatement(Criteria(q)))
  {
    if !CanManage(role) {
      return SentHome;
    }
    var page := ClampPage(q.page);
    listing := ListFiltered(page, Trim(q.search.OrElse("")), Trim(q.jobCategory.OrElse("")),
                            Trim(q.experienceRange.OrElse("")), Trim(q.status.OrElse("")),
                            q.dateFrom.OrElse(""), q.dateTo.OrElse(""));
  }

  /** What the database does with a filter, taken as given: `=` and SQL
      `LIKE` under the column's collation (which may ignore case and
      trailing spaces), and the day of a timestamp compared as a string. */
  datatype SqlSemantics = SqlSemantics(
    eq: (string, string) -> bool,
    like: (string, string) -> bool,
    dayOf: string -> string,
    dayAtOrAfter: (string, string) -> bool)

  /** Whether a row passes one filter. Comparing with NULL is never true. */
  predicate Passes(c: Candidate, f: Criterion, sql: SqlSemantics) {
    match f
    case Search(t) =>
      sql.like(c.profile.fullName, "%" + t + "%") || sql.like(c.profile.phoneNumber, "%" + t + "%")
    case CategoryIs(t) => sql.eq(c.profile.jobCategory, t)
    case ExperienceIs(t) => c.experienceRange.Some? && sql.eq(c.experienceRange.value, t)
    case StatusIs(t) => sql.eq(c.status, t)
    case CreatedFrom(t) => sql.dayAtOrAfter(sql.dayOf(c.createdAt), t)
    case CreatedTo(t) => sql.dayAtOrAfter(t, sql.dayOf(c.createdAt))
  }

  /** The rows the listing matches: those passing every filter in effect. */
  function Matching(rows: map<int, Candidate>, cs: seq<Criterion>, sql: SqlSemantics): (r: set<int>)
    ensures r <= rows.Keys
    ensures cs == [] ==> r == rows.Keys
  {
    set id | id in rows && forall f :: f in cs ==> Passes(rows[id], f, sql)
  }

  /** Registration never writes `experience_range`, so once an experience
      filter is in effect, no candidate who registered through the form
      matches. */
  lemma ExperienceFilterHidesRegistered(rows: map<int, Candidate>, cs: seq<Criterion>, sql: SqlSemantics)
    requires exists f :: f in cs && f.ExperienceIs?
    ensures forall id :: id in Matching(rows, cs, sql) ==> rows[id].experienceRange.Some?
  {
    var f :| f in cs && f.ExperienceIs?;
    forall id | id in Matching(rows, cs, sql) ensures rows[id].experienceRange.Some? {
      assert Passes(rows[id], f, sql);
    }
  }

  // ---------------------------------------------------------------------
  // Quick actions
  // ---------------------------------------------------------------------

  /** The statuses the status action accepts. */
  const Statuses: seq<string> := ["active", "archived", "contacted"]

  /** The JSON reply of a quick action. */
  datatype Reply = Reply(success: bool, message: string)

  /** What a quick-action request gets. The handler sits after the listing
      code, so a session that is not an admin's is redirected by the role
      gate, and a request whose `page` parameter overflows the offset ends
      at the failed page query, before any action runs and with no reply. */
  datatype Response = Redirect | Aborted | Json(reply: Reply)

  /** The listing code before the handler completes for this page
      parameter: the page's PHP offset is still an integer. */
  predicate ListingCompletes(page: Option<int>) {
    PhpOffset(ClampPage(page)).Some?
  }

  /** `update_status`, behind the role gate and the listing code: a status
      outside the list is refused before the table is touched; otherwise the
      row's status is set (a missing row is not an error) unless the
      statement fails. */
  method UpdateStatus(store: CandidateStore, role: Option<string>, page: Option<int>, id: int,
                      status: Option<string>, executes: bool)
    returns (response: Response)
    requires store.Valid()
    modifies store
    ensures store.Valid() && store.nextId == old(store.nextId)
    ensures !CanManage(role) ==> response == Redirect && store.rows == old(store.rows)
    ensures CanManage(role) && !ListingCompletes(page) ==> response == Aborted && store.rows == old(store.rows)
    ensures CanManage(role) && ListingCompletes(page) && (status.None? || status.value !in Statuses) ==>
              response == Json(Reply(false, "Invalid status")) && store.rows == old(store.rows)
    ensures CanManage(role) && ListingCompletes(page) && status.Some? && status.value in Statuses && !executes ==>
              response == Json(Reply(false, "Failed to update status")) && store.rows == old(store.rows)
    ensures CanManage(role) && ListingCompletes(page) && status.Some? && status.value in Statuses && executes ==>
              response == Json(Reply(true, "Status updated successfully"))
              && store.rows == WithStatus(old(store.rows), id, status.value)
    ensures PhonesDistinct(old(store.rows)) ==> PhonesDistinct(store.rows)
  {
    if !CanManage(role) {
      return Redirect;
    }
    if !ListingCompletes(page) {
      return Aborted;
    }
    if status.Some? && status.value in Statuses {
      if executes {
        if PhonesDistinct(store.rows) {
          WithStatusKeepsPhonesDistinct(store.rows, id, status.value);
        }
        store.SetStatus(id, status.value);
        response := Json(Reply(true, "Status updated successfully"));
      } else {
        response := Json(Reply(false, "Failed to update status"));
      }
    } else {
      response := Json(Reply(false, "Invalid status"));
    }
  }

  /** `delete_candidate`, behind the role gate and the listing code: the
      row goes, and the action reports success whenever the statement runs,
      even if no row had that id. */
  method DeleteCandidate(store: CandidateStore, role: Option<string>, page: Option<int>, id: int, executes: bool)
    returns (response: Response)
    requires store.Valid()
    modifies store
    ensures store.Valid() && store.nextId == old(store.nextId)
    ensures !CanManage(role) ==> response == Redirect && store.rows == old(store.rows)
    ensures CanManage(role) && !ListingCompletes(page) ==> response == Aborted && store.rows == old(store.rows)
    ensures CanManage(role) && ListingCompletes(page) && executes ==>
              response == Json(Reply(true, "Candidate deleted successfully"))
              && store.rows == old(store.rows) - {id}
    ensures CanManage(role) && ListingCompletes(page) && !executes ==>
              response == Json(Reply(false, "Failed to delete candidate"))
              && store.rows == old(store.rows)
    ensures PhonesDistinct(old(store.rows)) ==> PhonesDistinct(store.rows)
  {
    if !CanManage(role) {
      return Redirect;
    }
    if !ListingCompletes(page) {
      return Aborted;
    }
    if executes {
      store.Remove(id);
      response := Json(Reply(true, "Candidate deleted successfully"));
    } else {
      response := Json(Reply(false, "Failed to delete candidate"));
    }
  }
}
