/**
 * `handleRequest` and `apply`: how a request moves a lister's filters,
 * sorters and page, and how `apply` runs the filters and sorters on the
 * query, pages the result and stores the lister in the session.
 *
 * The Symfony forms are reduced to what the request carries for them: the
 * filter form's submission, its reset button and its fields' data, the
 * button clicked in a sorter form, and the request parameters.
 */
module Requests {
  import opened Wrappers
  import opened Errors
  import opened Values
  import opened Helper
  import opened Bags
  import opened Queries
  import opened Pagers
  import opened Listers
  import opened Snapshots
  import Filters
  import Sorters

  /** What a request carries. `filterSubmitted` is a submitted, valid filter
      form; `fields` the data of its fields by field name. `sorterClick` is
      the name of the button clicked in the sorter form that was submitted:
      every sorter form has one button, named after its sorter, so only
      that sorter's form is valid. `params` are the request parameters and
      `session` the request's session, when it has one. */
  datatype Request = Request(
    filterSubmitted: bool,
    resetClicked: bool,
    fields: map<string, Value>,
    sorterClick: Option<string>,
    params: map<string, string>,
    session: Option<Session>)

  /** The lister after `handleRequest`, and its return value. */
  datatype Handled = Handled(lister: Lister, handled: bool)

  /** The value a submitted filter field gives its filter: none after a
      reset or for empty data, the data otherwise. */
  function SubmittedValue(reset: bool, data: Value): Value {
    if reset || IsEmpty(data) then Null else data
  }

  /** The update a submitted filter form makes to each filter: a filter
      with a field in the form takes the field's value. */
  function FilterUpdate(reset: bool, fields: map<string, Value>): (string, Filters.Filter) -> Filters.Filter {
    (k: string, f: Filters.Filter) =>
      if f.name in fields then Filters.SetValue(f, SubmittedValue(reset, fields[f.name])) else f
  }

  /** The direction a click moves a sorter to: ascending from no direction,
      descending from (loosely) ascending, ascending from anything else. */
  function NextDirection(v: Value): Value {
    if IsEmpty(v) then Str(Asc)
    else if LooseEqualsWord(v, Asc) then Str(Desc)
    else Str(Asc)
  }

  /** The update a click on the sorter button `n` makes: the sorter stored
      under `n` moves on, then every sorter not named `n` loses its
      direction. */
  function SorterUpdate(n: string): (string, Sorters.Sorter) -> Sorters.Sorter {
    (k: string, s: Sorters.Sorter) =>
      if s.name != n then Sorters.SetValue(s, Null)
      else if k == n then Sorters.SetValue(s, NextDirection(s.value))
      else s
  }

  /** A click on `n` takes effect: some sorter's form has the button `n`,
      and a sorter is stored under `n`. */
  predicate SorterClicked(l: Lister, n: string) {
    Has(l.sorters, n) && exists k :: k in l.sorters.m && l.sorters.m[k].name == n
  }

  /** The filter part of `handleRequest`: whether the built filter form
      was submitted, and the filters it sets. */
  function HandleFilterForm(l: Lister, req: Request): Handled {
    if l.filterForm == FilterFormBuilt && req.filterSubmitted
    then Handled(l.(filters := MapEntries(l.filters, FilterUpdate(req.resetClicked, req.fields))), true)
    else Handled(l, false)
  }

  /** The sorter part of `handleRequest`. */
  function HandleSorterClick(l: Lister, click: Option<string>): Lister {
    if l.sorterForms && click.Some? && SorterClicked(l, click.value)
    then l.(sorters := MapEntries(l.sorters, SorterUpdate(click.value)))
    else l
  }

  /** The page part of `handleRequest`. */
  function RequestedPage(l: Lister, params: map<string, string>, handled: bool): int {
    var param := PageParameterName(l);
    if handled then 1
    else if param in params then Max(1, IntVal(params[param]))
    else 1
  }

  /** `handleRequest($request)`. */
  function HandleRequest(l: Lister, req: Request): Handled {
    var f := HandleFilterForm(l, req);
    var l2 := HandleSorterClick(f.lister, req.sorterClick);
    Handled(l2.(currentPage := RequestedPage(l, req.params, f.handled)), f.handled)
  }

  /** The checks at the start of `apply`, after building the filter form:
      the form is built when there is a builder and there are filters; the
      errors come in this order. */
  function Prepare(l: Lister): Effect<Lister> {
    var built := l.filterForm == FilterFormBuilder && Count(l.filters) > 0;
    var l1 := if built then l.(filterForm := FilterFormBuilt) else l;
    if !built && Count(l.filters) > 0 then Effect(l1, Some(FilterFormNotBuilt))
    else if Count(l1.elements) == 0 then Effect(l1, Some(NoElements))
    else if l1.query.None? then Effect(l1, Some(NoQuery))
    else Effect(l1, None)
  }

  /** The query rebuild of `apply`: a copy of the external query when there
      is one, the lister's own query cleared otherwise. */
  function Rebuild(l: Lister): Lister {
    if !l.rebuildQuery then l
    else if l.externalQuery.Some? then l.(query := l.externalQuery, rebuildQuery := false)
    else l.(query := if l.query.Some? then Some(Clear(l.query.value)) else None, rebuildQuery := false)
  }

  /** One filter after `apply` ran it, and the query or the error. */
  datatype FilterRun = FilterRun(filter: Filters.Filter, query: Result<Query, Error>)

  /** A filter gets the wildcard treatment when it uses its default method,
      its type is (loosely) text and its value is truthy. */
  predicate IsWildcardFilter(f: Filters.Filter) {
    f.isDefault && LooseEqualsWord(f.kind, Filters.TypeText) && Truthy(f.value)
  }

  /** The body of the filter loop of `apply` for one filter. A wildcard
      filter is applied with `LIKE`: without a `*` its value is wrapped in
      `%`, which is stripped again afterwards; with one, every `*` becomes
      `%` and every `%` then becomes `*`. The value is put back only when
      the filter succeeds. */
  function RunFilter(f: Filters.Filter, query: Option<Query>): FilterRun {
    if IsWildcardFilter(f) then
      match ScalarString(f.value)
      case None => FilterRun(f, Failure(TextFilterArrayValue))
      case Some(v) =>
        if '*' !in v then
          var f1 := Filters.SetValue(f, Str("%" + v + "%"));
          var r := Filters.Apply(f1, query, [Str(Like)]);
          if r.Failure? then FilterRun(f1, r)
          else FilterRun(Filters.SetValue(f1, Str(RemoveChar("%" + v + "%", '%'))), r)
        else
          var w := ReplaceChar(v, '*', '%');
          var f1 := Filters.SetValue(f, Str(w));
          var r := Filters.Apply(f1, query, [Str(Like)]);
          if r.Failure? then FilterRun(f1, r)
          else FilterRun(Filters.SetValue(f1, Str(ReplaceChar(w, '%', '*'))), r)
    else FilterRun(f, Filters.Apply(f, query, []))
  }

  /** The filters and the query while the filter loop of `apply` runs. */
  datatype FilterLoop = FilterLoop(filters: Bag<Filters.Filter>, query: Option<Query>)

  /** The filter loop of `apply` over the filters stored under `ks`: each
      filter is run on the current query and written back; the first error
      stops the loop. */
  function RunFilters(filters: Bag<Filters.Filter>, ks: seq<string>, query: Option<Query>): Effect<FilterLoop>
    decreases |ks|
  {
    if |ks| == 0 then Effect(FilterLoop(filters, query), None)
    else
      match Lookup(filters, ks[0])
      case None => RunFilters(filters, ks[1..], query)
      case Some(f) =>
        var run := RunFilter(f, query);
        var filters1 := Put(filters, ks[0], run.filter);
        if run.query.Failure? then Effect(FilterLoop(filters1, query), Some(run.query.error))
        else RunFilters(filters1, ks[1..], Some(run.query.value))
  }

  /** The sorter loop of `apply` over the sorters stored under `ks`, giving
      the query. */
  function RunSorters(sorters: Bag<Sorters.Sorter>, ks: seq<string>, query: Option<Query>): Effect<Option<Query>>
    decreases |ks|
  {
    if |ks| == 0 then Effect(query, None)
    else
      match Lookup(sorters, ks[0])
      case None => RunSorters(sorters, ks[1..], query)
      case Some(s) =>
        match Sorters.Apply(s, query, [])
        case Failure(e) => Effect(query, Some(e))
        case Success(q) => RunSorters(sorters, ks[1..], if q.Some? then q else query)
  }

  /** The paging step of `apply`: the query's rows paged from the current
      page, which then becomes the pager's page lifted to 1. */
  function Page(l: Lister, rows: seq<Value>): Lister {
    var p := Paginate(rows, l.perpage, l.currentPage);
    l.(pager := Some(p), currentPage := Max(1, p.page))
  }

  /** The lister and the request's session after `apply`. */
  datatype Applied = Applied(lister: Lister, session: Option<Session>)

  /** `apply($request)`. `fetch` gives the rows a query returns; `c` is the
      codec the session store serializes with. */
  function Apply(l: Lister, req: Request, fetch: Query -> seq<Value>, c: Codec): Effect<Applied> {
    var p := Prepare(l);
    if p.raised.Some? then Effect(Applied(p.state, req.session), p.raised)
    else
      var l1 := Rebuild(HandleRequest(p.state, req).lister);
      var fl := RunFilters(l1.filters, l1.filters.keys, l1.query);
      var l2 := l1.(filters := fl.state.filters, query := fl.state.query);
      if fl.raised.Some? then Effect(Applied(l2, req.session), fl.raised)
      else
        var sl := RunSorters(l2.sorters, l2.sorters.keys, l2.query);
        var l3 := l2.(query := sl.state);
        if sl.raised.Some? then Effect(Applied(l3, req.session), sl.raised)
        else
          var rows := if l3.query.Some? then fetch(l3.query.value) else [];
          var l4 := Page(l3, rows);
          var session := if req.session.Some? then Some(StoreInSession(l4, req.session.value, true, c).session) else None;
          Effect(Applied(l4, session), None)
  }

  // ---------------------------------------------------------------------
  // Lemmas

  /** A click always leaves a direction: ascending first, then descending,
      then ascending again. */
  lemma NextDirectionCycle(v: Value)
    ensures Sorters.IsDirection(NextDirection(v))
    ensures NextDirection(v) == Str(Desc) <==> !IsEmpty(v) && LooseEqualsWord(v, Asc)
    ensures NextDirection(Null) == Str(Asc)
    ensures NextDirection(Str(Asc)) == Str(Desc) && NextDirection(Str(Desc)) == Str(Asc)
  {
    Sorters.DirectionValues(Asc);
    Sorters.DirectionValues(Desc);
    Sorters.DirectionsAreWords();
  }

  /** The update of every value of a bag keeps its keys. */
  lemma MapEntriesKeys<V>(b: Bag<V>, f: (string, V) -> V)
    ensures MapEntries(b, f).keys == b.keys && MapEntries(b, f).validator == b.validator
    ensures MapEntries(b, f).m.Keys == b.m.Keys
    ensures forall k :: k in b.m ==> MapEntries(b, f).m[k] == f(k, b.m[k])
  {
  }

  /** A submitted filter form sets each filter that has a field in it:
      nothing after a reset or for empty data, the data otherwise. Other
      filters, and every filter when the form was not submitted or not
      built, keep their value; only values change. */
  lemma HandleFilters(l: Lister, req: Request)
    ensures var h := HandleFilterForm(l, req);
      && (h.handled <==> l.filterForm == FilterFormBuilt && req.filterSubmitted)
      && h.lister.(filters := l.filters) == l
      && h.lister.filters.keys == l.filters.keys && h.lister.filters.m.Keys == l.filters.m.Keys
      && h.lister.filters.validator == l.filters.validator
      && (forall k :: k in l.filters.m ==>
            var f := l.filters.m[k];
            h.lister.filters.m[k] ==
              if h.handled && f.name in req.fields
              then f.(value := SubmittedValue(req.resetClicked, req.fields[f.name]))
              else f)
  {
    MapEntriesKeys(l.filters, FilterUpdate(req.resetClicked, req.fields));
  }

  /** A click on the sorter button `n` moves the sorter stored under `n` to
      its next direction and clears every sorter not named `n`; without an
      effective click the sorters stay as they are. Only values change. */
  lemma HandleSorters(l: Lister, click: Option<string>)
    ensures var h := HandleSorterClick(l, click);
      && h.(sorters := l.sorters) == l
      && h.sorters.keys == l.sorters.keys && h.sorters.m.Keys == l.sorters.m.Keys
      && h.sorters.validator == l.sorters.validator
      && (!(l.sorterForms && click.Some? && SorterClicked(l, click.value)) ==> h.sorters == l.sorters)
      && (l.sorterForms && click.Some? && SorterClicked(l, click.value) ==>
            forall k :: k in l.sorters.m ==>
              var s := l.sorters.m[k];
              var t := h.sorters.m[k];
              && t.(value := s.value) == s
              && (s.name != click.value ==> t.value == Null)
              && (s.name == click.value && k == click.value ==> t.value == NextDirection(s.value))
              && (s.name == click.value && k != click.value ==> t == s))
  {
    if click.Some? {
      MapEntriesKeys(l.sorters, SorterUpdate(click.value));
    }
  }

  /** `handleRequest` touches only the filters, the sorters and the current
      page; the bags keep their keys. */
  lemma HandleRequestFrame(l: Lister, req: Request)
    ensures var h := HandleRequest(l, req).lister;
      && h.(filters := l.filters, sorters := l.sorters, currentPage := l.currentPage) == l
      && h.filters.keys == l.filters.keys && h.filters.m.Keys == l.filters.m.Keys
      && h.sorters.keys == l.sorters.keys && h.sorters.m.Keys == l.sorters.m.Keys
  {
    HandleFilters(l, req);
    HandleSorters(HandleFilterForm(l, req).lister, req.sorterClick);
  }

  /** When every sorter is stored under its own name, a click leaves exactly
      one sorter with a direction: the clicked one. */
  lemma ClickSortsByOne(l: Lister, n: string)
    requires l.sorterForms && Has(l.sorters, n)
    requires forall k :: k in l.sorters.m ==> l.sorters.m[k].name == k
    ensures var h := HandleSorterClick(l, Some(n));
      && n in h.sorters.m && Sorters.IsDirection(h.sorters.m[n].value)
      && forall k :: k in h.sorters.m && k != n ==> h.sorters.m[k].value == Null
  {
    assert SorterClicked(l, n) by {
      assert n in l.sorters.m && l.sorters.m[n].name == n;
    }
    HandleSorters(l, Some(n));
    NextDirectionCycle(l.sorters.m[n].value);
  }

  /** The page after `handleRequest`: the first page after a filter form
      submission, otherwise the request's page parameter read as an integer
      and lifted to 1, or 1 without one. */
  lemma HandlePage(l: Lister, req: Request)
    ensures var h := HandleRequest(l, req); var param := PageParameterName(l);
      && (h.handled <==> l.filterForm == FilterFormBuilt && req.filterSubmitted)
      && h.lister.currentPage >= 1
      && (h.handled ==> h.lister.currentPage == 1)
      && (!h.handled && param in req.params ==> h.lister.currentPage == Max(1, IntVal(req.params[param])))
      && (!h.handled && param !in req.params ==> h.lister.currentPage == 1)
  {
  }

  /** A page parameter written as a positive number is the page the lister
      moves to, unless a filter form submission resets it; a number past
      the integer range asks for the largest integer. */
  lemma PageParameterRoundTrip(l: Lister, req: Request, k: int)
    requires k >= 1
    requires PageParameterName(l) in req.params && req.params[PageParameterName(l)] == IntToString(k)
    ensures var h := HandleRequest(l, req);
      h.lister.currentPage == if h.handled then 1 else if k > PhpIntMax then PhpIntMax else k
  {
    IntValOfIntToString(k);
  }

  /** The checks `apply` starts with: an unbuildable filter form while
      there are filters, then no elements, then no query; the form is built
      exactly when there is a builder and there are filters. */
  lemma PrepareSpec(l: Lister)
    ensures var p := Prepare(l); var pending := Count(l.filters) > 0 && l.filterForm != FilterFormBuilder;
      && (pending ==> p.raised == Some(FilterFormNotBuilt))
      && (!pending && Count(l.elements) == 0 ==> p.raised == Some(NoElements))
      && (!pending && Count(l.elements) > 0 && l.query.None? ==> p.raised == Some(NoQuery))
      && (p.raised.None? <==> !pending && Count(l.elements) > 0 && l.query.Some?)
      && (p.state.filterForm == FilterFormBuilt <==>
            l.filterForm == FilterFormBuilt || (l.filterForm == FilterFormBuilder && Count(l.filters) > 0))
      && p.state.(filterForm := l.filterForm) == l
  {
  }

  /** `apply` fails with the first failing check, before it reads the
      request, and then leaves the session alone. */
  lemma ApplyChecksFirst(l: Lister, req: Request, fetch: Query -> seq<Value>, c: Codec)
    ensures var r := Apply(l, req, fetch, c); var pending := Count(l.filters) > 0 && l.filterForm != FilterFormBuilder;
      && (pending ==> r.raised == Some(FilterFormNotBuilt))
      && (!pending && Count(l.elements) == 0 ==> r.raised == Some(NoElements))
      && (!pending && Count(l.elements) > 0 && l.query.None? ==> r.raised == Some(NoQuery))
      && (pending || Count(l.elements) == 0 || l.query.None? ==>
            r.state.session == req.session && r.state.lister.(filterForm := l.filterForm) == l)
  {
    PrepareSpec(l);
  }

  /** The query rebuild: afterwards no rebuild is pending; a pending one
      starts again from the external query, or from the lister's own query
      with its conditions cleared. */
  lemma RebuildSpec(l: Lister)
    ensures var r := Rebuild(l);
      && !r.rebuildQuery
      && r.(query := l.query, rebuildQuery := l.rebuildQuery) == l
      && (!l.rebuildQuery ==> r.query == l.query)
      && (l.rebuildQuery && l.externalQuery.Some? ==> r.query == l.externalQuery)
      && (l.rebuildQuery && l.externalQuery.None? && l.query.Some? ==>
            r.query.Some? && r.query.value.methods == l.query.value.methods && r.query.value.log == [])
      && (l.query.Some? ==> r.query.Some?)
  {
  }

  /** The `LIKE` pattern a wildcard filter with value `v` is applied with. */
  function LikePattern(v: string): string {
    if '*' !in v then "%" + v + "%" else ReplaceChar(v, '*', '%')
  }

  /** The pattern never holds a `*`: a value without one is wrapped in `%`,
      and in a value with one every `*` becomes `%`. */
  lemma LikePatternSpec(v: string)
    ensures '*' !in LikePattern(v)
    ensures '*' !in v ==> LikePattern(v) == "%" + v + "%"
    ensures '*' in v ==> |LikePattern(v)| == |v| && LikePattern(v) != v
  {
    ReplaceCharIdentity(v, '*', '%');
  }

  /** A wildcard filter calls its method once, with the pattern and `LIKE`,
      and fails exactly when the filter itself would. On success its value
      is put back, and it reads as before exactly when it held no `%`
      (every `%` is stripped, or turned into `*`). On failure it keeps the
      pattern. Nothing else about the filter changes. */
  lemma WildcardFilterSpec(f: Filters.Filter, q: Query)
    requires IsWildcardFilter(f) && ScalarString(f.value).Some?
    ensures var v := ScalarString(f.value).value; var run := RunFilter(f, Some(q));
      && run.filter.(value := f.value) == f
      && (run.query.Failure? <==>
            (Filters.ResolvedType(f) == Filters.ChoiceType && |f.values| == 0) || !HasMethod(q, f.filterMethod))
      && (run.query.Success? ==>
            && run.query.value.methods == q.methods
            && run.query.value.log == q.log + [Call(f.filterMethod, [Str(LikePattern(v)), Str(Like)])]
            && (run.filter.value == Str(v) <==> '%' !in v))
      && (run.query.Failure? ==> run.filter.value == Str(LikePattern(v)))
  {
    var v := ScalarString(f.value).value;
    var f1 := Filters.SetValue(f, Str(LikePattern(v)));
    assert Filters.ResolvedType(f1) == Filters.ResolvedType(f);
    assert [f1.value] + [Str(Like)] == [Str(LikePattern(v)), Str(Like)];
    if '*' !in v {
      WildcardRestoresPlain(v);
    } else {
      WildcardRestoresStar(v);
    }
  }

  /** Without a `*`: stripping every `%` from `%v%` gives `v` back exactly
      when `v` holds no `%`. */
  lemma WildcardRestoresPlain(v: string)
    ensures RemoveChar("%" + v + "%", '%') == RemoveChar(v, '%')
    ensures RemoveChar(v, '%') == v <==> '%' !in v
  {
    RemoveCharConcat("%" + v, "%", '%');
    RemoveCharConcat("%", v, '%');
    assert RemoveChar("%", '%') == [];
    RemoveCharLength(v, '%');
  }

  /** With a `*`: turning every `*` into `%` and back turns every `%` into
      `*`, which gives `v` back exactly when `v` holds no `%`. */
  lemma WildcardRestoresStar(v: string)
    ensures ReplaceChar(ReplaceChar(v, '*', '%'), '%', '*') == ReplaceChar(v, '%', '*')
    ensures ReplaceChar(v, '%', '*') == v <==> '%' !in v
  {
    ReplaceCharBack(v, '*', '%');
    ReplaceCharIdentity(v, '%', '*');
  }

  /** A text filter whose value is an array or an object is refused; any
      filter that is not a wildcard filter is applied as it stands. */
  lemma RunFilterOtherCases(f: Filters.Filter, q: Option<Query>)
    ensures IsWildcardFilter(f) && ScalarString(f.value).None? ==>
      RunFilter(f, q) == FilterRun(f, Failure(TextFilterArrayValue))
    ensures !IsWildcardFilter(f) ==> RunFilter(f, q) == FilterRun(f, Filters.Apply(f, q, []))
  {
  }

  /** Running one filter keeps the query's methods and only adds calls. */
  lemma RunFilterQuery(f: Filters.Filter, q: Option<Query>)
    ensures var run := RunFilter(f, q);
      && (run.query.Success? ==> q.Some? && run.query.value.methods == q.value.methods && q.value.log <= run.query.value.log)
      && run.filter.name == f.name
  {
  }

  /** The filter loop changes only filter values, never the keys, and the
      query keeps its methods and only gains calls. */
  lemma {:induction false} RunFiltersFrame(filters: Bag<Filters.Filter>, ks: seq<string>, query: Option<Query>)
    ensures var e := RunFilters(filters, ks, query);
      && e.state.filters.keys == filters.keys && e.state.filters.m.Keys == filters.m.Keys
      && e.state.filters.validator == filters.validator
      && (query.Some? ==>
            e.state.query.Some? && e.state.query.value.methods == query.value.methods
            && query.value.log <= e.state.query.value.log)
    decreases |ks|
  {
    if |ks| > 0 {
      match Lookup(filters, ks[0])
      case None =>
        RunFiltersFrame(filters, ks[1..], query);
      case Some(f) =>
        var run := RunFilter(f, query);
        RunFilterQuery(f, query);
        if run.query.Success? {
          RunFiltersFrame(Put(filters, ks[0], run.filter), ks[1..], Some(run.query.value));
        }
    }
  }

  /** The sorter loop keeps the query's methods and only adds calls. */
  lemma {:induction false} RunSortersFrame(sorters: Bag<Sorters.Sorter>, ks: seq<string>, query: Option<Query>)
    ensures var e := RunSorters(sorters, ks, query);
      query.Some? ==>
        e.state.Some? && e.state.value.methods == query.value.methods && query.value.log <= e.state.value.log
    decreases |ks|
  {
    if |ks| > 0 {
      match Lookup(sorters, ks[0])
      case None =>
        RunSortersFrame(sorters, ks[1..], query);
      case Some(s) =>
        var r := Sorters.Apply(s, query, []);
        SorterApplyQuery(s, query);
        if r.Success? {
          RunSortersFrame(sorters, ks[1..], if r.value.Some? then r.value else query);
        }
    }
  }

  /** Applying a sorter keeps the query's methods and only adds calls. */
  lemma SorterApplyQuery(s: Sorters.Sorter, q: Option<Query>)
    ensures var r := Sorters.Apply(s, q, []);
      r.Success? && r.value.Some? ==>
        q.Some? && r.value.value.methods == q.value.methods && q.value.log <= r.value.value.log
  {
  }

  /** The paging step: the pager counts the rows, and the current page ends
      between 1 and the last page (1 when there is none), unchanged when it
      exists. */
  lemma PageSpec(l: Lister, rows: seq<Value>)
    requires l.currentPage >= 1
    ensures var r := Page(l, rows);
      && r.pager.Some? && r.pager.value.nbResults == |rows|
      && 1 <= r.currentPage <= Max(1, r.pager.value.lastPage)
      && (l.currentPage <= r.pager.value.lastPage ==> r.currentPage == l.currentPage)
      && r.(pager := l.pager, currentPage := l.currentPage) == l
  {
    PaginateClamp(rows, l.perpage, l.currentPage);
    NewPagerState(l.perpage);
  }

  /** The lister a successful `apply` leaves: it has a pager over the rows
      of its final query, its current page lies between 1 and the last page
      and is the page the request asked for whenever that page exists, no
      rebuild is pending, the filter form is built when there are filters,
      and only the query, the bag values, the pager and the page have
      changed. */
  lemma ApplySuccess(l: Lister, req: Request, fetch: Query -> seq<Value>, c: Codec)
    requires Apply(l, req, fetch, c).raised.None?
    ensures var a := Apply(l, req, fetch, c).state.lister;
      var asked := HandleRequest(Prepare(l).state, req).lister.currentPage;
      && a.pager.Some? && a.query.Some?
      && a.pager.value.nbResults == |fetch(a.query.value)|
      && 1 <= a.currentPage <= Max(1, a.pager.value.lastPage)
      && (asked <= a.pager.value.lastPage ==> a.currentPage == asked)
      && !a.rebuildQuery
      && (Count(l.filters) > 0 ==> a.filterForm == FilterFormBuilt)
      && a.filters.keys == l.filters.keys && a.sorters.keys == l.sorters.keys
      && a.(query := l.query, filters := l.filters, sorters := l.sorters, pager := l.pager,
            currentPage := l.currentPage, rebuildQuery := l.rebuildQuery, filterForm := l.filterForm) == l
  {
    var p := Prepare(l);
    PrepareSpec(l);
    var h := HandleRequest(p.state, req).lister;
    HandleRequestFrame(p.state, req);
    HandlePage(p.state, req);
    var l1 := Rebuild(h);
    RebuildSpec(h);
    var fl := RunFilters(l1.filters, l1.filters.keys, l1.query);
    RunFiltersFrame(l1.filters, l1.filters.keys, l1.query);
    var l2 := l1.(filters := fl.state.filters, query := fl.state.query);
    var sl := RunSorters(l2.sorters, l2.sorters.keys, l2.query);
    RunSortersFrame(l2.sorters, l2.sorters.keys, l2.query);
    var l3 := l2.(query := sl.state);
    var rows := fetch(l3.query.value);
    PageSpec(l3, rows);
    assert Apply(l, req, fetch, c).state.lister == Page(l3, rows);
  }

  /** A successful `apply` on a request with a session stores the lister
      there, overwriting, exactly when it persists. */
  lemma ApplyStores(l: Lister, req: Request, fetch: Query -> seq<Value>, c: Codec)
    requires Apply(l, req, fetch, c).raised.None? && req.session.Some?
    ensures var r := Apply(l, req, fetch, c).state;
      && r.session.Some?
      && (l.persist ==>
            r.session.value.lists.Some? && l.id in r.session.value.lists.value
            && r.session.value.lists.value[l.id] == Serialize(r.lister, c))
      && (!l.persist ==> r.session == req.session)
  {
    ApplySuccess(l, req, fetch, c);
    var r := Apply(l, req, fetch, c).state;
    StoreInSessionSpec(r.lister, req.session.value, true, c);
  }

  /** `apply` can run once on a lister with filters: the filter form is no
      longer a builder afterwards, so a second `apply` raises. */
  lemma SecondApplyRaises(l: Lister, req: Request, fetch: Query -> seq<Value>, c: Codec, req2: Request, fetch2: Query -> seq<Value>)
    requires Apply(l, req, fetch, c).raised.None? && Count(l.filters) > 0
    ensures Apply(Apply(l, req, fetch, c).state.lister, req2, fetch2, c).raised == Some(FilterFormNotBuilt)
  {
    ApplySuccess(l, req, fetch, c);
    var a := Apply(l, req, fetch, c).state.lister;
    ApplyChecksFirst(a, req2, fetch2, c);
  }

  /** The query a successful `apply` pages starts from the lister's own
      query, or, when a rebuild was pending, from the external query (or
      from no conditions at all): the calls of the filters and sorters come
      after it. */
  lemma ApplyQueryStart(l: Lister, req: Request, fetch: Query -> seq<Value>, c: Codec)
    requires Apply(l, req, fetch, c).raised.None?
    ensures l.query.Some? && Apply(l, req, fetch, c).state.lister.query.Some?
    ensures var a := Apply(l, req, fetch, c).state.lister.query.value;
      && (!l.rebuildQuery ==> a.methods == l.query.value.methods && l.query.value.log <= a.log)
      && (l.rebuildQuery && l.externalQuery.Some? ==>
            a.methods == l.externalQuery.value.methods && l.externalQuery.value.log <= a.log)
      && (l.rebuildQuery && l.externalQuery.None? ==> a.methods == l.query.value.methods)
  {
    var p := Prepare(l);
    PrepareSpec(l);
    var h := HandleRequest(p.state, req).lister;
    HandleRequestFrame(p.state, req);
    var l1 := Rebuild(h);
    RebuildSpec(h);
    var fl := RunFilters(l1.filters, l1.filters.keys, l1.query);
    RunFiltersFrame(l1.filters, l1.filters.keys, l1.query);
    var l2 := l1.(filters := fl.state.filters, query := fl.state.query);
    RunSortersFrame(l2.sorters, l2.sorters.keys, l2.query);
    ApplySuccess(l, req, fetch, c);
  }
}
