/**
 * `Lister`: the state of one list (its query, filters, sorters, elements,
 * paging and presentation settings) and the operations that configure it.
 * Request handling and `apply` are in `Requests`, serialization and the
 * session store in `Snapshots`.
 */
module Listers {
  import opened Wrappers
  import opened Errors
  import opened Values
  import opened Helper
  import opened Bags
  import opened Queries
  import opened Pagers
  import Filters
  import Sorters
  import Elements

  /** The filter form slot: nothing assigned, a builder that `apply` will
      build, or the form built from it. A built form is no longer a
      builder. */
  datatype FilterForm = NoFilterForm | FilterFormBuilder | FilterFormBuilt

  datatype Lister = Lister(
    id: string,
    query: Option<Query>,
    externalQuery: Option<Query>,
    filters: Bag<Filters.Filter>,
    sorters: Bag<Sorters.Sorter>,
    elements: Bag<Elements.Element>,
    pager: Option<Pager>,
    perpage: int,
    currentPage: int,
    persist: bool,
    dynamic: bool,
    rebuildQuery: bool,
    filterLayout: string,
    listLayout: string,
    elementLayout: string,
    paginationLayout: string,
    translationDomain: string,
    customOptions: seq<(string, Value)>,
    filterForm: FilterForm,
    sorterForms: bool)

  /** The item classes `FilterBag`, `SorterBag` and `ElementBag` validate
      against. */
  const FilterClass := "\\Dszczer\\ListerBundle\\Filter\\Filter"
  const SorterClass := "\\Dszczer\\ListerBundle\\Sorter\\Sorter"
  const ElementClass := "\\Dszczer\\ListerBundle\\Element\\Element"

  const DefaultFilterLayout := "@DszczerListerBundle:Lister:filter.html.twig"
  const DefaultListLayout := "@DszczerListerBundle:Lister:table.html.twig"
  const DefaultElementLayout := "@DszczerListerBundle:Lister:tableElement.html.twig"
  const DefaultPaginationLayout := "@DszczerListerBundle:Lister:pagination.html.twig"
  const DefaultTranslationDomain := "default"
  const QuickReloadRoute := "lister_quick_reload"

  /** The three bags are well formed. */
  predicate WellFormed(l: Lister) {
    Valid(l.filters) && Valid(l.sorters) && Valid(l.elements)
  }

  /** What `resolveCustomOptions([])` yields: the resolver's defaults. */
  function DefaultOptions(id: string): seq<(string, Value)> {
    [("maxLinks", Int(7)), ("route", Str(QuickReloadRoute)), ("params", Arr([("uuid", Str(id))]))]
  }

  /** A lister as the constructor leaves it, for a given id, persistence and
      query. */
  function Initial(id: string, persist: bool, query: Option<Query>): Lister {
    Lister(
      id, query, None,
      Bag([], map[], FilterClass), Bag([], map[], SorterClass), Bag([], map[], ElementClass),
      None, 0, 1, persist, true, false,
      DefaultFilterLayout, DefaultListLayout, DefaultElementLayout, DefaultPaginationLayout,
      DefaultTranslationDomain, DefaultOptions(id), NoFilterForm, false)
  }

  /** `new Lister($id, $modelClass)`. `create(c)` is the query `c::create()`
      returns when `c` is a `ModelCriteria` class, `None` otherwise; `generated`
      is the id `Helper::uuidv4()` generates. An empty id (PHP `empty()`)
      gets the generated id and switches persistence off. */
  function NewLister(id: string, modelClass: string, create: string -> Option<Query>, generated: string): (r: Result<Lister, Error>)
    requires !IsEmptyString(generated)
    ensures r.Failure? <==> !IsEmptyString(modelClass) && create(modelClass).None?
    ensures r.Failure? ==> r.error == InvalidModelClass
    ensures r.Success? ==> WellFormed(r.value) && !IsEmptyString(r.value.id)
    ensures r.Success? ==> Count(r.value.filters) == 0 && Count(r.value.sorters) == 0 && Count(r.value.elements) == 0
    ensures r.Success? && !IsEmptyString(id) ==> r.value.id == id && r.value.persist
    ensures r.Success? && IsEmptyString(id) ==> r.value.id == generated && !r.value.persist
    ensures r.Success? ==> (r.value.query.Some? <==> !IsEmptyString(modelClass))
  {
    var query := if IsEmptyString(modelClass) then None else create(modelClass);
    if !IsEmptyString(modelClass) && query.None? then Failure(InvalidModelClass)
    else if IsEmptyString(id) then Success(Initial(generated, false, query))
    else Success(Initial(id, true, query))
  }

  /** `setPerPage($int)`: a negative count reads as 0, no paging. */
  function SetPerPage(l: Lister, n: int): (r: Lister)
    ensures r.perpage >= 0
    ensures n >= 0 ==> r.perpage == n
    ensures n < 0 ==> r.perpage == 0
    ensures r.(perpage := l.perpage) == l
  {
    l.(perpage := Max(0, n))
  }

  function SetPersist(l: Lister, state: bool): Lister {
    l.(persist := state)
  }

  function SetDynamic(l: Lister, state: bool): Lister {
    l.(dynamic := state)
  }

  /** `getPageRequestParameterName()`. */
  function PageParameterName(l: Lister): string {
    "p_" + l.id
  }

  /** `setQuery($query)`: the query and the copy `apply` rebuilds from. */
  function SetQuery(l: Lister, q: Query): Lister {
    l.(query := Some(q), externalQuery := Some(q))
  }

  /** `getFilterLayout($raw)` and the other three layout getters. */
  function Layout(path: string, raw: bool): string {
    if raw then path else FixTwigTemplatePath(path)
  }

  function SetFilterLayout(l: Lister, path: string): Lister {
    l.(filterLayout := path)
  }

  function SetListLayout(l: Lister, path: string): Lister {
    l.(listLayout := path)
  }

  function SetElementLayout(l: Lister, path: string): Lister {
    l.(elementLayout := path)
  }

  function SetPaginationLayout(l: Lister, path: string): Lister {
    l.(paginationLayout := path)
  }

  function SetTranslationDomain(l: Lister, domain: string): Lister {
    l.(translationDomain := domain)
  }

  /** `setFilterFormBuilder($builder)`. */
  function SetFilterFormBuilder(l: Lister): Lister {
    l.(filterForm := FilterFormBuilder)
  }

  /** `setSorterFormBuilder($builder)`. */
  function SetSorterFormBuilder(l: Lister): Lister {
    l.(sorterForms := true)
  }

  // ---------------------------------------------------------------------
  // The three bags. The lister treats them alike, keyed by item name.

  /** `get($name)` with a `null` default. */
  function Lookup<V>(b: Bag<V>, k: string): Option<V> {
    if k in b.m then Some(b.m[k]) else None
  }

  /** `addFilter`, `addSorter`, `addElement($item, $overwrite)`: the item is
      stored under its name unless the name is taken and `overwrite` is
      off. */
  function AddNamed<V>(b: Bag<V>, name: string, v: V, overwrite: bool): Bag<V> {
    if overwrite || !Has(b, name) then Put(b, name, v) else b
  }

  /** The loop of `setFilters($bag, false)`: every item added under its own
      name, never overwriting. */
  function MergeNamed<V>(b: Bag<V>, items: seq<(string, V)>, nameOf: V -> string): Bag<V>
    decreases |items|
  {
    if |items| == 0 then b
    else MergeNamed(AddNamed(b, nameOf(items[0].1), items[0].1, false), items[1..], nameOf)
  }

  /** `setFilters`, `setSorters`, `setElements($bag, $overwrite)`. With
      overwrite the bag's entries replace the contents (every item passes
      the item-class validation); without it they are merged by name. */
  function AssignAll<V>(b: Bag<V>, other: Bag<V>, overwrite: bool, nameOf: V -> string): Bag<V>
    requires Valid(other)
  {
    if overwrite then FromEntries(Items(other), b.validator) else MergeNamed(b, Items(other), nameOf)
  }

  function FilterName(f: Filters.Filter): string {
    f.name
  }

  function SorterName(s: Sorters.Sorter): string {
    s.name
  }

  function ElementName(e: Elements.Element): string {
    e.name
  }

  function AddFilter(l: Lister, f: Filters.Filter, overwrite: bool): Lister {
    l.(filters := AddNamed(l.filters, f.name, f, overwrite))
  }

  predicate HasFilter(l: Lister, name: string) {
    Has(l.filters, name)
  }

  function GetFilter(l: Lister, name: string): Option<Filters.Filter> {
    Lookup(l.filters, name)
  }

  function RemoveFilter(l: Lister, name: string): Lister {
    l.(filters := Remove(l.filters, name))
  }

  function SetFilters(l: Lister, other: Bag<Filters.Filter>, overwrite: bool): Lister
    requires Valid(other)
  {
    l.(filters := AssignAll(l.filters, other, overwrite, FilterName))
  }

  function AddSorter(l: Lister, s: Sorters.Sorter, overwrite: bool): Lister {
    l.(sorters := AddNamed(l.sorters, s.name, s, overwrite))
  }

  predicate HasSorter(l: Lister, name: string) {
    Has(l.sorters, name)
  }

  function GetSorter(l: Lister, name: string): Option<Sorters.Sorter> {
    Lookup(l.sorters, name)
  }

  function RemoveSorter(l: Lister, name: string): Lister {
    l.(sorters := Remove(l.sorters, name))
  }

  function SetSorters(l: Lister, other: Bag<Sorters.Sorter>, overwrite: bool): Lister
    requires Valid(other)
  {
    l.(sorters := AssignAll(l.sorters, other, overwrite, SorterName))
  }

  function AddElement(l: Lister, e: Elements.Element, overwrite: bool): Lister {
    l.(elements := AddNamed(l.elements, e.name, e, overwrite))
  }

  predicate HasElement(l: Lister, name: string) {
    Has(l.elements, name)
  }

  function GetElement(l: Lister, name: string): Option<Elements.Element> {
    Lookup(l.elements, name)
  }

  function RemoveElement(l: Lister, name: string): Lister {
    l.(elements := Remove(l.elements, name))
  }

  function SetElements(l: Lister, other: Bag<Elements.Element>, overwrite: bool): Lister
    requires Valid(other)
  {
    l.(elements := AssignAll(l.elements, other, overwrite, ElementName))
  }

  /** `addField(...)`: an element always, a sorter when `sort` is set, a
      filter when the filter type is truthy; none of them overwrites. The
      filter is constructed last, so a rejected type raises after the
      element and the sorter are in. `isCallable` is PHP's `is_callable`. */
  function AddField(
    l: Lister, name: string, labelText: string, sort: bool,
    filterType: Value, filterMethod: string, filterValue: Value, filterValues: seq<(string, Value)>,
    sorterMethod: string, sorterValue: Value,
    elementMethod: string, elementCallable: Value, elementData: Value,
    isCallable: Value -> bool): Effect<Lister>
  {
    AddFieldParts(
      l,
      Elements.NewElement(name, labelText, elementMethod, elementCallable, elementData, isCallable),
      sort, Sorters.NewSorter(name, labelText, sorterMethod, sorterValue),
      Truthy(filterType), Filters.NewFilter(filterType, name, labelText, filterMethod, filterValue, filterValues))
  }

  /** `addField` once its element, sorter and filter are constructed (the
      filter only when `withFilter`). */
  function AddFieldParts(
    l: Lister, e: Elements.Element, sort: bool, s: Sorters.Sorter,
    withFilter: bool, f: Result<Filters.Filter, Error>): Effect<Lister>
  {
    var l1 := AddElement(l, e, false);
    var l2 := if sort then AddSorter(l1, s, false) else l1;
    if !withFilter then Effect(l2, None)
    else if f.Success? then Effect(AddFilter(l2, f.value, false), None)
    else Effect(l2, Some(f.error))
  }

  // ---------------------------------------------------------------------
  // Hydration

  /** `getHydratedElements($row)` for a non-null row: a copy of every
      element, in order, holding the row as its data. */
  function HydrateRow(l: Lister, row: Value): seq<Elements.Element>
    requires Valid(l.elements)
  {
    seq(Count(l.elements), i requires 0 <= i < Count(l.elements) => Elements.SetData(Items(l.elements)[i].1, row))
  }

  /** `getHydratedElements()`: one hydrated row per row of the current
      page. `rows` are the rows the query selects. */
  function HydratePage(l: Lister, rows: seq<Value>): seq<seq<Elements.Element>>
    requires Valid(l.elements) && l.pager.Some?
  {
    var page := Results(l.pager.value, rows);
    seq(|page|, i requires 0 <= i < |page| => HydrateRow(l, page[i]))
  }

  // ---------------------------------------------------------------------
  // Lemmas

  /** An id given to the constructor is kept and the list persists; without
      one the list gets a generated id and is not persisted. A model class
      that is not a query class is refused. */
  lemma ConstructorIdRule(id: string, modelClass: string, create: string -> Option<Query>, generated: string)
    requires !IsEmptyString(generated)
    requires IsEmptyString(modelClass) || create(modelClass).Some?
    ensures var l := NewLister(id, modelClass, create, generated).value;
      && (l.persist <==> !IsEmptyString(id))
      && (if IsEmptyString(id) then l.id == generated else l.id == id)
      && l.currentPage == 1 && l.perpage == 0 && l.dynamic && !l.rebuildQuery
      && l.customOptions == DefaultOptions(l.id)
  {
  }

  /** The layout getters return the stored path raw, and otherwise a path
      with no ':' in it. */
  lemma LayoutPaths(path: string)
    ensures Layout(path, true) == path
    ensures ':' !in Layout(path, false)
    ensures Layout(path, false) == path <==> ':' !in path && !ContainsSub(path, "Bundle")
  {
    FixTwigHasNoColon(path);
    FixTwigFixpoint(path);
  }

  /** Adding without overwrite keeps an entry already stored under the
      name; adding with overwrite, or under a new name, stores the item in
      place or at the end. Nothing else changes. */
  lemma AddNamedSpec<V>(b: Bag<V>, name: string, v: V, overwrite: bool)
    requires Valid(b)
    ensures Valid(AddNamed(b, name, v, overwrite))
    ensures Has(b, name) && !overwrite ==> AddNamed(b, name, v, overwrite) == b
    ensures !Has(b, name) || overwrite ==>
      && Lookup(AddNamed(b, name, v, overwrite), name) == Some(v)
      && AddNamed(b, name, v, overwrite).keys == (if Has(b, name) then b.keys else b.keys + [name])
    ensures forall k :: k != name ==> Lookup(AddNamed(b, name, v, overwrite), k) == Lookup(b, k)
  {
    PutSpec(b, name, v);
  }

  /** Merging without overwrite never changes an entry already present, and
      afterwards every merged item's name is present. */
  lemma {:induction false} MergeNamedKeeps<V>(b: Bag<V>, items: seq<(string, V)>, nameOf: V -> string)
    requires Valid(b)
    ensures Valid(MergeNamed(b, items, nameOf))
    ensures forall k :: Has(b, k) ==> Lookup(MergeNamed(b, items, nameOf), k) == Lookup(b, k)
    ensures forall i :: 0 <= i < |items| ==> Has(MergeNamed(b, items, nameOf), nameOf(items[i].1))
    ensures forall k :: Has(MergeNamed(b, items, nameOf), k) ==>
      Has(b, k) || exists i :: 0 <= i < |items| && nameOf(items[i].1) == k
    decreases |items|
  {
    if |items| > 0 {
      var n := nameOf(items[0].1);
      var b1 := AddNamed(b, n, items[0].1, false);
      AddNamedSpec(b, n, items[0].1, false);
      MergeNamedKeeps(b1, items[1..], nameOf);
      var r := MergeNamed(b, items, nameOf);
      assert r == MergeNamed(b1, items[1..], nameOf);
      forall i | 0 <= i < |items| ensures Has(r, nameOf(items[i].1)) {
        if i > 0 {
          assert items[i] == items[1..][i - 1];
        } else {
          assert Has(b1, n);
        }
      }
      forall k | Has(r, k) ensures Has(b, k) || exists i :: 0 <= i < |items| && nameOf(items[i].1) == k {
        if !Has(b, k) && k != n {
          assert !Has(b1, k);
          var j :| 0 <= j < |items[1..]| && nameOf(items[1..][j].1) == k;
          assert items[j + 1] == items[1..][j];
        }
      }
    }
  }

  /** `setFilters` and friends: with overwrite the contents become exactly
      the other bag's entries; without it, existing entries are kept and
      every other name is brought in. */
  lemma AssignAllSpec<V>(b: Bag<V>, other: Bag<V>, nameOf: V -> string)
    requires Valid(b) && Valid(other)
    ensures Valid(AssignAll(b, other, true, nameOf)) && Items(AssignAll(b, other, true, nameOf)) == Items(other)
    ensures Valid(AssignAll(b, other, false, nameOf))
    ensures forall k :: Has(b, k) ==> Lookup(AssignAll(b, other, false, nameOf), k) == Lookup(b, k)
    ensures forall i :: 0 <= i < Count(other) ==> Has(AssignAll(b, other, false, nameOf), nameOf(Items(other)[i].1))
  {
    var a := Items(other);
    assert EntryKeys(a) == other.keys;
    FromEntriesItems(a, b.validator);
    MergeNamedKeeps(b, a, nameOf);
  }

  /** Removing by name deletes that entry only; looking it up afterwards
      finds nothing. */
  lemma RemoveByName(l: Lister, name: string)
    requires WellFormed(l)
    ensures WellFormed(RemoveFilter(RemoveSorter(RemoveElement(l, name), name), name))
    ensures var r := RemoveFilter(RemoveSorter(RemoveElement(l, name), name), name);
      && !HasFilter(r, name) && !HasSorter(r, name) && !HasElement(r, name)
      && (forall k :: k != name ==> GetFilter(r, k) == GetFilter(l, k))
      && (forall k :: k != name ==> GetSorter(r, k) == GetSorter(l, k))
      && (forall k :: k != name ==> GetElement(r, k) == GetElement(l, k))
  {
    RemoveSpec(l.elements, name);
    RemoveSpec(l.sorters, name);
    RemoveSpec(l.filters, name);
  }

  /** `addField` registers the element always and the sorter exactly when
      sorting is asked for, whether or not the filter is then refused; the
      filter exactly when it is asked for and constructed. None of them
      overwrites: under a name already present the stored item stays. A
      refused filter raises whether or not the name was present, and no
      other name is touched. */
  lemma AddFieldPartsSpec(
    l: Lister, name: string, e: Elements.Element, sort: bool, s: Sorters.Sorter,
    withFilter: bool, f: Result<Filters.Filter, Error>)
    requires WellFormed(l) && e.name == name && s.name == name && (f.Success? ==> f.value.name == name)
    ensures var r := AddFieldParts(l, e, sort, s, withFilter, f);
      && WellFormed(r.state)
      && GetElement(r.state, name) == (if HasElement(l, name) then GetElement(l, name) else Some(e))
      && (HasSorter(r.state, name) <==> HasSorter(l, name) || sort)
      && (sort ==> GetSorter(r.state, name) == (if HasSorter(l, name) then GetSorter(l, name) else Some(s)))
      && (!sort ==> r.state.sorters == l.sorters)
      && (HasFilter(r.state, name) <==> HasFilter(l, name) || (withFilter && f.Success?))
      && (withFilter && f.Success? ==>
            GetFilter(r.state, name) == (if HasFilter(l, name) then GetFilter(l, name) else Some(f.value)))
      && (!(withFilter && f.Success?) ==> r.state.filters == l.filters)
      && (r.raised.Some? <==> withFilter && f.Failure?)
      && (r.raised.Some? ==> r.raised == Some(f.error))
    ensures var r := AddFieldParts(l, e, sort, s, withFilter, f);
      forall k :: k != name ==>
        && GetElement(r.state, k) == GetElement(l, k)
        && GetSorter(r.state, k) == GetSorter(l, k)
        && GetFilter(r.state, k) == GetFilter(l, k)
  {
    AddFieldPartsShape(l, e, sort, s, withFilter, f);
    AddFieldPartsElement(l, name, e, sort, s, withFilter, f);
    AddFieldPartsSorter(l, name, e, sort, s, withFilter, f);
    AddFieldPartsFilter(l, name, e, sort, s, withFilter, f);
  }

  /** The three bags after `addField`, each on its own. */
  lemma AddFieldPartsShape(
    l: Lister, e: Elements.Element, sort: bool, s: Sorters.Sorter,
    withFilter: bool, f: Result<Filters.Filter, Error>)
    ensures var r := AddFieldParts(l, e, sort, s, withFilter, f);
      && r.state.elements == AddNamed(l.elements, e.name, e, false)
      && r.state.sorters == (if sort then AddNamed(l.sorters, s.name, s, false) else l.sorters)
      && r.state.filters == (if withFilter && f.Success? then AddNamed(l.filters, f.value.name, f.value, false) else l.filters)
      && r.raised == (if withFilter && f.Failure? then Some(f.error) else None)
  {
  }

  lemma AddFieldPartsElement(
    l: Lister, name: string, e: Elements.Element, sort: bool, s: Sorters.Sorter,
    withFilter: bool, f: Result<Filters.Filter, Error>)
    requires WellFormed(l) && e.name == name
    ensures var r := AddFieldParts(l, e, sort, s, withFilter, f);
      && Valid(r.state.elements)
      && GetElement(r.state, name) == (if HasElement(l, name) then GetElement(l, name) else Some(e))
      && forall k :: k != name ==> GetElement(r.state, k) == GetElement(l, k)
  {
    AddFieldPartsShape(l, e, sort, s, withFilter, f);
    AddNamedSpec(l.elements, name, e, false);
  }

  lemma AddFieldPartsSorter(
    l: Lister, name: string, e: Elements.Element, sort: bool, s: Sorters.Sorter,
    withFilter: bool, f: Result<Filters.Filter, Error>)
    requires WellFormed(l) && s.name == name
    ensures var r := AddFieldParts(l, e, sort, s, withFilter, f);
      && Valid(r.state.sorters)
      && (HasSorter(r.state, name) <==> HasSorter(l, name) || sort)
      && (sort ==> GetSorter(r.state, name) == (if HasSorter(l, name) then GetSorter(l, name) else Some(s)))
      && (!sort ==> r.state.sorters == l.sorters)
      && forall k :: k != name ==> GetSorter(r.state, k) == GetSorter(l, k)
  {
    AddFieldPartsShape(l, e, sort, s, withFilter, f);
    AddNamedSpec(l.sorters, name, s, false);
  }

  lemma AddFieldPartsFilter(
    l: Lister, name: string, e: Elements.Element, sort: bool, s: Sorters.Sorter,
    withFilter: bool, f: Result<Filters.Filter, Error>)
    requires WellFormed(l) && (f.Success? ==> f.value.name == name)
    ensures var r := AddFieldParts(l, e, sort, s, withFilter, f);
      && Valid(r.state.filters)
      && (HasFilter(r.state, name) <==> HasFilter(l, name) || (withFilter && f.Success?))
      && (withFilter && f.Success? ==>
            GetFilter(r.state, name) == (if HasFilter(l, name) then GetFilter(l, name) else Some(f.value)))
      && (!(withFilter && f.Success?) ==> r.state.filters == l.filters)
      && forall k :: k != name ==> GetFilter(r.state, k) == GetFilter(l, k)
  {
    AddFieldPartsShape(l, e, sort, s, withFilter, f);
    if f.Success? {
      AddNamedSpec(l.filters, name, f.value, false);
    }
  }

  /** `addField(name, ...)`: the element is always registered, the sorter
      exactly when sorting is asked for, and the filter exactly when the
      filter type is truthy and known; an item already stored under the
      name stays. An unknown truthy type raises, whether or not the name
      was present, with the element and the sorter already registered. */
  lemma AddFieldFanOut(
    l: Lister, name: string, labelText: string, sort: bool,
    filterType: Value, filterMethod: string, filterValue: Value, filterValues: seq<(string, Value)>,
    sorterMethod: string, sorterValue: Value,
    elementMethod: string, elementCallable: Value, elementData: Value,
    isCallable: Value -> bool)
    requires WellFormed(l)
    ensures var r := AddField(l, name, labelText, sort, filterType, filterMethod, filterValue, filterValues,
                              sorterMethod, sorterValue, elementMethod, elementCallable, elementData, isCallable);
      && WellFormed(r.state)
      && GetElement(r.state, name) ==
           (if HasElement(l, name) then GetElement(l, name)
            else Some(Elements.NewElement(name, labelText, elementMethod, elementCallable, elementData, isCallable)))
      && (HasSorter(r.state, name) <==> HasSorter(l, name) || sort)
      && (HasSorter(l, name) ==> GetSorter(r.state, name) == GetSorter(l, name))
      && (HasFilter(r.state, name) <==> HasFilter(l, name) || (Truthy(filterType) && Filters.KnownType(filterType)))
      && (HasFilter(l, name) ==> GetFilter(r.state, name) == GetFilter(l, name))
      && (r.raised.Some? <==> Truthy(filterType) && !Filters.KnownType(filterType))
      && (r.raised.Some? ==> r.raised == Some(InvalidFilterType))
  {
    var e := Elements.NewElement(name, labelText, elementMethod, elementCallable, elementData, isCallable);
    var s := Sorters.NewSorter(name, labelText, sorterMethod, sorterValue);
    var f := Filters.NewFilter(filterType, name, labelText, filterMethod, filterValue, filterValues);
    AddFieldPartsSpec(l, name, e, sort, s, Truthy(filterType), f);
  }

  /** A hydrated row is the element list in order, each element with the
      row as data and otherwise as configured; reading its data raw gives
      the row back. */
  lemma HydrateRowSpec(l: Lister, row: Value, x: Elements.Extractor)
    requires Valid(l.elements)
    ensures |HydrateRow(l, row)| == Count(l.elements)
    ensures forall i :: 0 <= i < Count(l.elements) ==>
      && HydrateRow(l, row)[i].(data := Items(l.elements)[i].1.data) == Items(l.elements)[i].1
      && Elements.GetData(HydrateRow(l, row)[i], true, x) == Success(row)
  {
  }

  /** The hydrated page has one row per result of the current page, in
      order, each the hydration of that result. */
  lemma HydratePageSpec(l: Lister, rows: seq<Value>, x: Elements.Extractor)
    requires Valid(l.elements) && l.pager.Some?
    ensures var page := Results(l.pager.value, rows);
      && |HydratePage(l, rows)| == |page|
      && forall i, j :: 0 <= i < |page| && 0 <= j < Count(l.elements) ==>
           Elements.GetData(HydratePage(l, rows)[i][j], true, x) == Success(page[i])
           && HydratePage(l, rows)[i][j].name == Items(l.elements)[j].1.name
  {
  }
}
