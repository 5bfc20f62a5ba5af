/**
 * The serialized form of a lister and the session store of serialized
 * listers: `serialize`, `unserialize`, `storeInSession`, `getFromSession`
 * and `removeFromSession`.
 *
 * A snapshot is the array `serialize()` returns, by key. The query and the
 * three bags are stored as strings made by `Helper::encodeAnything`; the
 * encoding is outside the model and is supplied as a `Codec`.
 */
module Snapshots {
  import opened Wrappers
  import opened Errors
  import opened Values
  import opened Bags
  import opened Queries
  import opened Listers
  import Filters
  import Sorters
  import Elements

  type Snapshot = map<string, Value>

  /** The serialized listers a session keeps, by id. */
  type Store = map<string, Snapshot>

  /** The session key the store is kept under. */
  const StorageName := "lister_serialized_objects"

  /** The session's value under the storage name, when it has one. */
  datatype Session = Session(lists: Option<Store>)

  /** What `Helper::decodeAnything` gives back, as far as `unserialize`
      tells values apart: null, a query, one of the three bags, or anything
      else. */
  datatype Decoded =
    | DNull
    | DQuery(query: Query)
    | DFilters(filters: Bag<Filters.Filter>)
    | DSorters(sorters: Bag<Sorters.Sorter>)
    | DElements(elements: Bag<Elements.Element>)
    | DOther

  /** `Helper::encodeAnything` and `Helper::decodeAnything`. */
  datatype Codec = Codec(encode: Decoded -> string, decode: string -> Decoded)

  /** The fields of a snapshot, in the order `unserialize` checks them. */
  datatype Field =
    | Id | QueryField | ExternalQueryField | FiltersField | SortersField | ElementsField
    | PerPage | CurrentPage | Persist | Dynamic
    | FilterLayout | ListLayout | ElementLayout | PaginationLayout | TranslationDomain | CustomOptions

  const FieldOrder: seq<Field> := [
    Id, QueryField, ExternalQueryField, FiltersField, SortersField, ElementsField,
    PerPage, CurrentPage, Persist, Dynamic,
    FilterLayout, ListLayout, ElementLayout, PaginationLayout, TranslationDomain, CustomOptions]

  function Key(f: Field): string {
    match f
    case Id => "id"
    case QueryField => "query"
    case ExternalQueryField => "externalQuery"
    case FiltersField => "filters"
    case SortersField => "sorters"
    case ElementsField => "elements"
    case PerPage => "perpage"
    case CurrentPage => "currentPage"
    case Persist => "persist"
    case Dynamic => "dynamic"
    case FilterLayout => "filterLayout"
    case ListLayout => "listLayout"
    case ElementLayout => "elementLayout"
    case PaginationLayout => "paginationLayout"
    case TranslationDomain => "translationDomain"
    case CustomOptions => "customOptions"
  }

  /** The value a lister holds in one serialized field. */
  datatype Slot =
    | SString(str: string)
    | SQuery(query: Option<Query>)
    | SFilters(filters: Bag<Filters.Filter>)
    | SSorters(sorters: Bag<Sorters.Sorter>)
    | SElements(elements: Bag<Elements.Element>)
    | SInt(n: int)
    | SBool(flag: bool)
    | SEntries(entries: seq<(string, Value)>)

  /** The slot has the shape field `f` holds. */
  predicate Fits(f: Field, s: Slot) {
    match f
    case Id => s.SString?
    case QueryField => s.SQuery?
    case ExternalQueryField => s.SQuery?
    case FiltersField => s.SFilters?
    case SortersField => s.SSorters?
    case ElementsField => s.SElements?
    case PerPage => s.SInt?
    case CurrentPage => s.SInt?
    case Persist => s.SBool?
    case Dynamic => s.SBool?
    case FilterLayout => s.SString?
    case ListLayout => s.SString?
    case ElementLayout => s.SString?
    case PaginationLayout => s.SString?
    case TranslationDomain => s.SString?
    case CustomOptions => s.SEntries?
  }

  /** The lister's value in field `f`. */
  function Project(l: Lister, f: Field): (s: Slot)
    ensures Fits(f, s)
  {
    match f
    case Id => SString(l.id)
    case QueryField => SQuery(l.query)
    case ExternalQueryField => SQuery(l.externalQuery)
    case FiltersField => SFilters(l.filters)
    case SortersField => SSorters(l.sorters)
    case ElementsField => SElements(l.elements)
    case PerPage => SInt(l.perpage)
    case CurrentPage => SInt(l.currentPage)
    case Persist => SBool(l.persist)
    case Dynamic => SBool(l.dynamic)
    case FilterLayout => SString(l.filterLayout)
    case ListLayout => SString(l.listLayout)
    case ElementLayout => SString(l.elementLayout)
    case PaginationLayout => SString(l.paginationLayout)
    case TranslationDomain => SString(l.translationDomain)
    case CustomOptions => SEntries(l.customOptions)
  }

  /** The lister with field `f` set to `s`. */
  function Write(l: Lister, f: Field, s: Slot): Lister
    requires Fits(f, s)
  {
    match f
    case Id => l.(id := s.str)
    case QueryField => l.(query := s.query)
    case ExternalQueryField => l.(externalQuery := s.query)
    case FiltersField => l.(filters := s.filters)
    case SortersField => l.(sorters := s.sorters)
    case ElementsField => l.(elements := s.elements)
    case PerPage => l.(perpage := s.n)
    case CurrentPage => l.(currentPage := s.n)
    case Persist => l.(persist := s.flag)
    case Dynamic => l.(dynamic := s.flag)
    case FilterLayout => l.(filterLayout := s.str)
    case ListLayout => l.(listLayout := s.str)
    case ElementLayout => l.(elementLayout := s.str)
    case PaginationLayout => l.(paginationLayout := s.str)
    case TranslationDomain => l.(translationDomain := s.str)
    case CustomOptions => l.(customOptions := s.entries)
  }

  /** The encoded form of an optional query: `null` or the query. */
  function QueryCode(q: Option<Query>): Decoded {
    if q.Some? then DQuery(q.value) else DNull
  }

  /** `serialize()`. */
  function Serialize(l: Lister, c: Codec): Snapshot {
    map[
      "id" := Str(l.id),
      "query" := Str(c.encode(QueryCode(l.query))),
      "externalQuery" := Str(c.encode(QueryCode(l.externalQuery))),
      "filters" := Str(c.encode(DFilters(l.filters))),
      "sorters" := Str(c.encode(DSorters(l.sorters))),
      "elements" := Str(c.encode(DElements(l.elements))),
      "perpage" := Int(l.perpage),
      "currentPage" := Int(l.currentPage),
      "persist" := Bool(l.persist),
      "dynamic" := Bool(l.dynamic),
      "filterLayout" := Str(l.filterLayout),
      "listLayout" := Str(l.listLayout),
      "elementLayout" := Str(l.elementLayout),
      "paginationLayout" := Str(l.paginationLayout),
      "translationDomain" := Str(l.translationDomain),
      "customOptions" := Arr(l.customOptions)]
  }

  /** How `unserialize` treats one field: leaves it (an optional field that
      is absent or not a string), takes a value for it, or raises. */
  datatype Read = Skip | Take(slot: Slot) | Reject

  /** `unserialize`'s check of one field. The query and bag fields are
      optional and decoded; a decoded null bag is read as an empty bag. The
      other fields are required with a fixed PHP type (`isset` and
      `is_string`, `is_int`, `is_bool` or `is_array`). */
  function ReadField(f: Field, data: Snapshot, c: Codec): (r: Read)
    ensures r.Take? ==> Fits(f, r.slot)
  {
    var k := Key(f);
    var present := k in data;
    match f
    case Id => if present && data[k].Str? then Take(SString(data[k].s)) else Reject
    case QueryField => if present && data[k].Str? then DecodeQuery(c.decode(data[k].s)) else Skip
    case ExternalQueryField => if present && data[k].Str? then DecodeQuery(c.decode(data[k].s)) else Skip
    case FiltersField =>
      if !(present && data[k].Str?) then Skip
      else (match c.decode(data[k].s)
        case DNull => Take(SFilters(Bag([], map[], FilterClass)))
        case DFilters(b) => Take(SFilters(b))
        case _ => Reject)
    case SortersField =>
      if !(present && data[k].Str?) then Skip
      else (match c.decode(data[k].s)
        case DNull => Take(SSorters(Bag([], map[], SorterClass)))
        case DSorters(b) => Take(SSorters(b))
        case _ => Reject)
    case ElementsField =>
      if !(present && data[k].Str?) then Skip
      else (match c.decode(data[k].s)
        case DNull => Take(SElements(Bag([], map[], ElementClass)))
        case DElements(b) => Take(SElements(b))
        case _ => Reject)
    case PerPage => if present && data[k].Int? then Take(SInt(data[k].i)) else Reject
    case CurrentPage => if present && data[k].Int? then Take(SInt(data[k].i)) else Reject
    case Persist => if present && data[k].Bool? then Take(SBool(data[k].b)) else Reject
    case Dynamic => if present && data[k].Bool? then Take(SBool(data[k].b)) else Reject
    case FilterLayout => if present && data[k].Str? then Take(SString(data[k].s)) else Reject
    case ListLayout => if present && data[k].Str? then Take(SString(data[k].s)) else Reject
    case ElementLayout => if present && data[k].Str? then Take(SString(data[k].s)) else Reject
    case PaginationLayout => if present && data[k].Str? then Take(SString(data[k].s)) else Reject
    case TranslationDomain => if present && data[k].Str? then Take(SString(data[k].s)) else Reject
    case CustomOptions => if present && data[k].Arr? then Take(SEntries(data[k].entries)) else Reject
  }

  /** A decoded query field must be a query or null. */
  function DecodeQuery(d: Decoded): Read {
    match d
    case DNull => Take(SQuery(None))
    case DQuery(q) => Take(SQuery(Some(q)))
    case _ => Reject
  }

  /** The check of each field of `fs`, in order. */
  function ReadAll(fs: seq<Field>, data: Snapshot, c: Codec): (rs: seq<Read>)
    ensures Fit(fs, rs)
  {
    seq(|fs|, i requires 0 <= i < |fs| => ReadField(fs[i], data, c))
  }

  /** One read per field, each of the field's shape. */
  predicate Fit(fs: seq<Field>, rs: seq<Read>) {
    |rs| == |fs| && forall i :: 0 <= i < |fs| && rs[i].Take? ==> Fits(fs[i], rs[i].slot)
  }

  /** The outcome of the checks `rs` of the fields `fs`, one after the
      other. A field is written as soon as it passes, so a later failure
      leaves the earlier fields overwritten. */
  function WriteAll(l: Lister, fs: seq<Field>, rs: seq<Read>): Effect<Lister>
    requires Fit(fs, rs)
    decreases |fs|
  {
    if |fs| == 0 then Effect(l, None)
    else
      match rs[0]
      case Skip => WriteAll(l, fs[1..], rs[1..])
      case Take(s) => WriteAll(Write(l, fs[0], s), fs[1..], rs[1..])
      case Reject => Effect(l, Some(InvalidSnapshot))
  }

  /** `unserialize($data)` applied to the lister `l`. */
  function Unserialize(l: Lister, data: Snapshot, c: Codec): Effect<Lister> {
    if |data| == 0 then Effect(l, Some(InvalidSnapshot))
    else
      var e := WriteAll(l, FieldOrder, ReadAll(FieldOrder, data, c));
      if e.raised.Some? then e else Effect(e.state.(rebuildQuery := true), None)
  }

  /** The lister `new self` creates inside the session functions. */
  function Fresh(generated: string): Lister {
    Initial(generated, false, None)
  }

  /** The outcome of a session write: whether it happened, and the session
      afterwards. */
  datatype Stored = Stored(done: bool, session: Session)

  /** `storeInSession($session, $overwrite)`. */
  function StoreInSession(l: Lister, s: Session, overwrite: bool, c: Codec): Stored {
    var lists := s.lists.GetOr(map[]);
    if !l.persist || (l.id in lists && !overwrite) then Stored(false, s)
    else Stored(true, Session(Some(lists[l.id := Serialize(l, c)])))
  }

  /** `Lister::getFromSession($session, $uuid)`: `None` is the `null`
      returned when there is nothing usable under the id; an exception from
      `unserialize` propagates. `generated` is the id of the blank lister
      it unserializes into. */
  function GetFromSession(s: Session, uuid: string, c: Codec, generated: string): Result<Option<Lister>, Error> {
    if s.lists.None? || uuid !in s.lists.value || |s.lists.value[uuid]| == 0 then Success(None)
    else
      var data := s.lists.value[uuid];
      if !("id" in data && data["id"] == Str(uuid)) then Success(None)
      else
        var e := Unserialize(Fresh(generated), data, c);
        if e.raised.Some? then Failure(e.raised.value)
        else if e.state.id == uuid then Success(Some(e.state))
        else Success(None)
  }

  /** `Lister::removeFromSession($session, $uuid)`: the entry goes when it
      unserializes to a lister with that id, or does not unserialize at
      all. */
  function RemoveFromSession(s: Session, uuid: string, c: Codec, generated: string): Stored {
    if s.lists.None? || uuid !in s.lists.value then Stored(false, s)
    else
      var lists := s.lists.value;
      var e := Unserialize(Fresh(generated), lists[uuid], c);
      if e.raised.Some? || e.state.id == uuid then Stored(true, Session(Some(lists - {uuid})))
      else Stored(false, s)
  }

  // ---------------------------------------------------------------------
  // Lemmas

  /** Writing a field changes that field only. */
  lemma ProjectWrite(l: Lister, f: Field, s: Slot, g: Field)
    requires Fits(f, s)
    ensures Project(Write(l, f, s), g) == if g == f then s else Project(l, g)
    ensures Write(l, f, s).pager == l.pager && Write(l, f, s).rebuildQuery == l.rebuildQuery
    ensures Write(l, f, s).filterForm == l.filterForm && Write(l, f, s).sorterForms == l.sorterForms
  {
  }

  /** The position of the first rejected check, or the number of checks
      when none is rejected. */
  function FirstReject(rs: seq<Read>): (n: nat)
    ensures n <= |rs|
    ensures forall i :: 0 <= i < n ==> !rs[i].Reject?
    ensures n < |rs| ==> rs[n].Reject?
  {
    if |rs| == 0 then 0
    else if rs[0].Reject? then 0
    else 1 + FirstReject(rs[1..])
  }

  predicate Distinct(fs: seq<Field>) {
    forall i, j :: 0 <= i < j < |fs| ==> fs[i] != fs[j]
  }

  /** The parts of a lister a snapshot does not hold. */
  predicate SameUnserialized(a: Lister, b: Lister) {
    a.pager == b.pager && a.rebuildQuery == b.rebuildQuery
    && a.filterForm == b.filterForm && a.sorterForms == b.sorterForms
  }

  /** The value field `f` holds after its check `r`: the value read, or
      the lister's own when the field is skipped. */
  function Outcome(l: Lister, f: Field, r: Read): Slot {
    if r.Take? then r.slot else Project(l, f)
  }

  /** The position of a field in the check order. */
  function FieldIndex(f: Field): (i: nat)
    ensures i < |FieldOrder| && FieldOrder[i] == f
  {
    match f
    case Id => 0
    case QueryField => 1
    case ExternalQueryField => 2
    case FiltersField => 3
    case SortersField => 4
    case ElementsField => 5
    case PerPage => 6
    case CurrentPage => 7
    case Persist => 8
    case Dynamic => 9
    case FilterLayout => 10
    case ListLayout => 11
    case ElementLayout => 12
    case PaginationLayout => 13
    case TranslationDomain => 14
    case CustomOptions => 15
  }

  /** Every field is checked, once. */
  lemma FieldOrderComplete()
    ensures forall f :: f in FieldOrder
    ensures Distinct(FieldOrder)
  {
    forall f ensures f in FieldOrder {
      assert FieldOrder[FieldIndex(f)] == f;
    }
    forall i | 0 <= i < |FieldOrder| ensures FieldIndex(FieldOrder[i]) == i {
    }
  }

  /** The checks run in order and stop at the first rejected field, which
      raises; every field checked before it has already been written, and
      nothing else is. */
  lemma {:induction false} WriteAllSpec(l: Lister, fs: seq<Field>, rs: seq<Read>)
    requires Fit(fs, rs) && Distinct(fs)
    ensures var e := WriteAll(l, fs, rs); var n := FirstReject(rs);
      && (e.raised.Some? <==> n < |fs|)
      && (e.raised.Some? ==> e.raised == Some(InvalidSnapshot))
      && (forall i :: 0 <= i < n ==> Project(e.state, fs[i]) == Outcome(l, fs[i], rs[i]))
      && (forall g :: g !in fs[..n] ==> Project(e.state, g) == Project(l, g))
      && SameUnserialized(e.state, l)
    decreases |fs|
  {
    if |fs| == 0 {
      return;
    }
    var f, rest := fs[0], fs[1..];
    assert Fit(rest, rs[1..]) by {
      forall i | 0 <= i < |rest| && rs[1..][i].Take? ensures Fits(rest[i], rs[1..][i].slot) {
        assert rest[i] == fs[i + 1] && rs[1..][i] == rs[i + 1];
      }
    }
    assert Distinct(rest) by {
      forall i, j | 0 <= i < j < |rest| ensures rest[i] != rest[j] {
        assert rest[i] == fs[i + 1] && rest[j] == fs[j + 1];
      }
    }
    assert f !in rest by {
      forall j | 0 <= j < |rest| ensures rest[j] != f {
        assert rest[j] == fs[j + 1];
      }
    }
    if rs[0].Reject? {
      return;
    }
    var n := FirstReject(rs);
    var l1 := if rs[0].Take? then Write(l, f, rs[0].slot) else l;
    WriteAllSpec(l1, rest, rs[1..]);
    var e := WriteAll(l1, rest, rs[1..]);
    assert e == WriteAll(l, fs, rs);
    assert fs[..n] == [f] + rest[..n - 1];
    assert f !in rest[..n - 1];
    if rs[0].Take? {
      ProjectWrite(l, f, rs[0].slot, f);
      forall g | g != f ensures Project(l1, g) == Project(l, g) {
        ProjectWrite(l, f, rs[0].slot, g);
      }
    }
    forall i | 1 <= i < n ensures Project(e.state, fs[i]) == Outcome(l, fs[i], rs[i]) {
      assert fs[i] == rest[i - 1] && rs[i] == rs[1..][i - 1];
    }
  }

  /** Setting the rebuild flag leaves every serialized field alone. */
  lemma ProjectIgnoresRebuild(l: Lister, g: Field)
    ensures Project(l.(rebuildQuery := true), g) == Project(l, g)
  {
  }

  /** `unserialize` raises exactly when the data is empty or some field
      fails its check, always with the same error, and a run that does not
      raise sets the rebuild flag. */
  lemma UnserializeRaises(l: Lister, data: Snapshot, c: Codec)
    ensures var e := Unserialize(l, data, c);
      && (e.raised.Some? <==> |data| == 0 || exists f :: ReadField(f, data, c).Reject?)
      && (e.raised.Some? ==> e.raised == Some(InvalidSnapshot))
      && (e.raised.None? ==> e.state.rebuildQuery)
  {
    if |data| == 0 {
      return;
    }
    FieldOrderComplete();
    var rs := ReadAll(FieldOrder, data, c);
    WriteAllSpec(l, FieldOrder, rs);
    var n := FirstReject(rs);
    if n < |FieldOrder| {
      assert ReadField(FieldOrder[n], data, c).Reject?;
    } else {
      forall f ensures !ReadField(f, data, c).Reject? {
        assert rs[FieldIndex(f)] == ReadField(f, data, c);
      }
    }
  }

  /** A failing `unserialize` does not roll back: every field before the
      first rejected one holds what was read for it (or its old value when
      skipped), and the fields from the rejected one on are untouched. */
  lemma UnserializeNoRollback(l: Lister, data: Snapshot, c: Codec)
    requires |data| > 0
    ensures var e := Unserialize(l, data, c);
      var rs := ReadAll(FieldOrder, data, c); var n := FirstReject(rs);
      && (e.raised.Some? <==> n < |FieldOrder|)
      && (e.raised.Some? ==> e.raised == Some(InvalidSnapshot))
      && (forall i :: 0 <= i < n ==> Project(e.state, FieldOrder[i]) == Outcome(l, FieldOrder[i], rs[i]))
      && (forall i :: n <= i < |FieldOrder| ==> Project(e.state, FieldOrder[i]) == Project(l, FieldOrder[i]))
      && e.state.pager == l.pager && e.state.filterForm == l.filterForm && e.state.sorterForms == l.sorterForms
  {
    FieldOrderComplete();
    var rs := ReadAll(FieldOrder, data, c);
    var w := WriteAll(l, FieldOrder, rs);
    WriteAllSpec(l, FieldOrder, rs);
    var n := FirstReject(rs);
    forall g ensures Project(w.state.(rebuildQuery := true), g) == Project(w.state, g) {
      ProjectIgnoresRebuild(w.state, g);
    }
  }

  /** A snapshot holding only an id: the id is written, then the missing
      `perpage` raises and the lister keeps the new id. */
  lemma UnserializeStopsAtPerPage(l: Lister, x: string, c: Codec)
    ensures var e := Unserialize(l, map["id" := Str(x)], c);
      e.raised == Some(InvalidSnapshot) && e.state.id == x && e.state.perpage == l.perpage
  {
    IdOnlyStops(x, c);
    StopsAtPerPage(l, map["id" := Str(x)], c, x);
  }

  /** A snapshot whose id is read and whose first rejected field is
      `perpage`. */
  lemma StopsAtPerPage(l: Lister, data: Snapshot, c: Codec, x: string)
    requires "id" in data
    requires var rs := ReadAll(FieldOrder, data, c); rs[0] == Take(SString(x)) && FirstReject(rs) == 6
    ensures var e := Unserialize(l, data, c);
      e.raised == Some(InvalidSnapshot) && e.state.id == x && e.state.perpage == l.perpage
  {
    var e := Unserialize(l, data, c);
    var rs := ReadAll(FieldOrder, data, c);
    assert |data| > 0;
    UnserializeNoRollback(l, data, c);
    assert FieldOrder[0] == Id && FieldOrder[6] == PerPage;
    assert Project(e.state, Id) == Outcome(l, Id, rs[0]) == SString(x);
    assert Project(e.state, PerPage) == Project(l, PerPage);
  }

  lemma IdOnlyStops(x: string, c: Codec)
    ensures var rs := ReadAll(FieldOrder, map["id" := Str(x)], c);
      rs[0] == Take(SString(x)) && FirstReject(rs) == 6
  {
    var rs := ReadAll(FieldOrder, map["id" := Str(x)], c);
    IdOnlyReads(x, c);
    assert rs[1].Skip? && rs[2].Skip? && rs[3].Skip? && rs[4].Skip? && rs[5].Skip? && rs[6].Reject?;
  }

  /** The checks of a snapshot holding only an id. */
  lemma IdOnlyReads(x: string, c: Codec)
    ensures var data := map["id" := Str(x)];
      && ReadField(Id, data, c) == Take(SString(x))
      && ReadField(QueryField, data, c).Skip? && ReadField(ExternalQueryField, data, c).Skip?
      && ReadField(FiltersField, data, c).Skip? && ReadField(SortersField, data, c).Skip?
      && ReadField(ElementsField, data, c).Skip? && ReadField(PerPage, data, c).Reject?
  {
    var data := map["id" := Str(x)];
    assert "query" !in data && "externalQuery" !in data && "filters" !in data;
    assert "sorters" !in data && "elements" !in data && "perpage" !in data;
  }

  /** The fields `unserialize` insists on. */
  predicate Required(f: Field) {
    !(f.QueryField? || f.ExternalQueryField? || f.FiltersField? || f.SortersField? || f.ElementsField?)
  }

  /** The PHP type a required field must have. */
  predicate HasRequiredType(f: Field, v: Value) {
    if f.PerPage? || f.CurrentPage? then v.Int?
    else if f.Persist? || f.Dynamic? then v.Bool?
    else if f.CustomOptions? then v.Arr?
    else v.Str?
  }

  /** The decoded values an optional field accepts: null, or a value of
      the field's class. */
  predicate AcceptsDecoded(f: Field, d: Decoded) {
    d.DNull?
    || ((f.QueryField? || f.ExternalQueryField?) && d.DQuery?)
    || (f.FiltersField? && d.DFilters?)
    || (f.SortersField? && d.DSorters?)
    || (f.ElementsField? && d.DElements?)
  }

  /** The check of each field: a required field is rejected exactly when it
      is missing or of the wrong type; an optional field is skipped unless it
      holds a string, and that string is rejected exactly when it decodes to
      something other than null or the field's class. */
  lemma ReadFieldRules(f: Field, data: Snapshot, c: Codec)
    ensures Required(f) ==>
      (ReadField(f, data, c).Reject? <==> !(Key(f) in data && HasRequiredType(f, data[Key(f)])))
    ensures Required(f) && !ReadField(f, data, c).Reject? ==> ReadField(f, data, c).Take?
    ensures !Required(f) ==> (ReadField(f, data, c).Skip? <==> !(Key(f) in data && data[Key(f)].Str?))
    ensures !Required(f) && Key(f) in data && data[Key(f)].Str? ==>
      (ReadField(f, data, c).Reject? <==> !AcceptsDecoded(f, c.decode(data[Key(f)].s)))
  {
  }

  /** The codec gives back each encoded part of `l`. */
  predicate RoundTrips(c: Codec, l: Lister) {
    && c.decode(c.encode(QueryCode(l.query))) == QueryCode(l.query)
    && c.decode(c.encode(QueryCode(l.externalQuery))) == QueryCode(l.externalQuery)
    && c.decode(c.encode(DFilters(l.filters))) == DFilters(l.filters)
    && c.decode(c.encode(DSorters(l.sorters))) == DSorters(l.sorters)
    && c.decode(c.encode(DElements(l.elements))) == DElements(l.elements)
  }

  /** Each field of a serialized lister passes its check and reads back the
      lister's value; the id does so whatever the codec. */
  lemma SerializeReads(l: Lister, c: Codec, f: Field)
    requires RoundTrips(c, l) || f.Id?
    ensures ReadField(f, Serialize(l, c), c) == Take(Project(l, f))
  {
    if Required(f) {
      SerializeReadsPlain(l, c, f);
    } else {
      SerializeReadsEncoded(l, c, f);
    }
  }

  lemma SerializeReadsPlain(l: Lister, c: Codec, f: Field)
    requires Required(f)
    ensures ReadField(f, Serialize(l, c), c) == Take(Project(l, f))
  {
    match f {
      case Id =>
      case PerPage =>
      case CurrentPage =>
      case Persist =>
      case Dynamic =>
      case FilterLayout =>
      case ListLayout =>
      case ElementLayout =>
      case PaginationLayout =>
      case TranslationDomain =>
      case CustomOptions =>
    }
  }

  lemma SerializeReadsEncoded(l: Lister, c: Codec, f: Field)
    requires RoundTrips(c, l) && !Required(f)
    ensures ReadField(f, Serialize(l, c), c) == Take(Project(l, f))
  {
    var data := Serialize(l, c);
    if f.QueryField? || f.ExternalQueryField? {
      assert data[Key(f)] == Str(c.encode(QueryCode(if f.QueryField? then l.query else l.externalQuery)));
    } else if f.FiltersField? {
      assert data["filters"] == Str(c.encode(DFilters(l.filters)));
    } else if f.SortersField? {
      assert data["sorters"] == Str(c.encode(DSorters(l.sorters)));
    } else {
      assert data["elements"] == Str(c.encode(DElements(l.elements)));
    }
  }

  /** Every check of a serialized lister takes the lister's value. */
  lemma SerializeReadsAll(l: Lister, c: Codec)
    requires RoundTrips(c, l)
    ensures var rs := ReadAll(FieldOrder, Serialize(l, c), c);
      && (forall i :: 0 <= i < |FieldOrder| ==> rs[i] == Take(Project(l, FieldOrder[i])))
      && FirstReject(rs) == |FieldOrder|
  {
    var rs := ReadAll(FieldOrder, Serialize(l, c), c);
    forall i | 0 <= i < |FieldOrder| ensures rs[i] == Take(Project(l, FieldOrder[i])) {
      SerializeReads(l, c, FieldOrder[i]);
    }
  }

  /** `unserialize(serialize())` restores every serialized field and sets
      the rebuild flag; the parts a snapshot does not hold are those of the
      lister it is read into. */
  lemma UnserializeSerialize(b: Lister, l: Lister, c: Codec)
    requires RoundTrips(c, l)
    ensures var e := Unserialize(b, Serialize(l, c), c);
      && e.raised.None?
      && (forall g :: Project(e.state, g) == Project(l, g))
      && e.state.rebuildQuery
      && e.state.pager == b.pager && e.state.filterForm == b.filterForm && e.state.sorterForms == b.sorterForms
  {
    var data := Serialize(l, c);
    var rs := ReadAll(FieldOrder, data, c);
    assert |data| > 0 by {
      assert "id" in data;
    }
    assert FirstReject(rs) == |FieldOrder| && forall i :: 0 <= i < |FieldOrder| ==> rs[i] == Take(Project(l, FieldOrder[i])) by {
      SerializeReadsAll(l, c);
    }
    UnserializeNoRollback(b, data, c);
    forall g ensures Project(Unserialize(b, data, c).state, g) == Project(l, g) {
      assert FieldOrder[FieldIndex(g)] == g;
    }
  }

  /** The id a snapshot holds is written first: a snapshot whose id is
      `uuid` unserializes, when it does, to a lister with id `uuid`. */
  lemma UnserializeKeepsId(l: Lister, data: Snapshot, c: Codec, uuid: string)
    requires "id" in data && data["id"] == Str(uuid)
    ensures var e := Unserialize(l, data, c); e.raised.None? ==> e.state.id == uuid
  {
    var rs := ReadAll(FieldOrder, data, c);
    assert rs[0] == Take(SString(uuid));
    UnserializeNoRollback(l, data, c);
    assert Project(Unserialize(l, data, c).state, FieldOrder[0]) == SString(uuid);
  }

  /** `storeInSession` writes exactly when the lister persists and its id
      is new or overwriting is allowed; it then holds the lister's snapshot
      under its id and keeps every other entry. */
  lemma StoreInSessionSpec(l: Lister, s: Session, overwrite: bool, c: Codec)
    ensures var r := StoreInSession(l, s, overwrite, c); var before := s.lists.GetOr(map[]);
      && (r.done <==> l.persist && (l.id !in before || overwrite))
      && (!r.done ==> r.session == s)
      && (r.done ==>
            && r.session.lists.Some?
            && r.session.lists.value.Keys == before.Keys + {l.id}
            && r.session.lists.value[l.id] == Serialize(l, c)
            && forall k :: k in before && k != l.id ==> r.session.lists.value[k] == before[k])
  {
  }

  /** A lister built without an id does not persist, so it is never
      stored. */
  lemma NoIdNeverStored(modelClass: string, create: string -> Option<Query>, generated: string, s: Session, overwrite: bool, c: Codec)
    requires !IsEmptyString(generated)
    requires NewLister("", modelClass, create, generated).Success?
    ensures !StoreInSession(NewLister("", modelClass, create, generated).value, s, overwrite, c).done
  {
    ConstructorIdRule("", modelClass, create, generated);
  }

  /** `getFromSession` gives a lister only for a stored, non-empty snapshot
      whose id is the one asked for, and that lister has the id; the final
      id comparison never turns a successfully read snapshot away; a
      snapshot that fails its checks raises. */
  lemma GetFromSessionSpec(s: Session, uuid: string, c: Codec, generated: string)
    ensures var r := GetFromSession(s, uuid, c, generated);
      && (r.Failure? ==> r.error == InvalidSnapshot)
      && (r.Success? && r.value.Some? ==> r.value.value.id == uuid && r.value.value.rebuildQuery)
      && (r.Success? && r.value.None? <==>
            s.lists.None? || uuid !in s.lists.value || |s.lists.value[uuid]| == 0
            || !("id" in s.lists.value[uuid] && s.lists.value[uuid]["id"] == Str(uuid)))
  {
    if s.lists.Some? && uuid in s.lists.value && |s.lists.value[uuid]| > 0 {
      var data := s.lists.value[uuid];
      if "id" in data && data["id"] == Str(uuid) {
        UnserializeKeepsId(Fresh(generated), data, c, uuid);
        UnserializeRaises(Fresh(generated), data, c);
      }
    }
  }

  /** A lister stored in the session is got back from it under its id, with
      every serialized field restored, when the codec round-trips. */
  lemma StoreThenGet(l: Lister, s: Session, overwrite: bool, c: Codec, generated: string)
    requires RoundTrips(c, l)
    requires StoreInSession(l, s, overwrite, c).done
    ensures var r := GetFromSession(StoreInSession(l, s, overwrite, c).session, l.id, c, generated);
      && r.Success? && r.value.Some?
      && (forall g :: Project(r.value.value, g) == Project(l, g))
      && r.value.value.rebuildQuery
  {
    var data := Serialize(l, c);
    assert "id" in data && data["id"] == Str(l.id);
    UnserializeSerialize(Fresh(generated), l, c);
    ProjectWrite(l, Id, SString(l.id), Id);
    assert Project(Unserialize(Fresh(generated), data, c).state, Id) == SString(l.id);
  }

  /** `removeFromSession` drops the entry under `uuid` exactly when there is
      one and it fails to unserialize or unserializes to that id; every
      other entry stays. */
  lemma RemoveFromSessionSpec(s: Session, uuid: string, c: Codec, generated: string)
    ensures var r := RemoveFromSession(s, uuid, c, generated);
      && (r.done <==>
            && s.lists.Some? && uuid in s.lists.value
            && (Unserialize(Fresh(generated), s.lists.value[uuid], c).raised.Some?
                || Unserialize(Fresh(generated), s.lists.value[uuid], c).state.id == uuid))
      && (!r.done ==> r.session == s)
      && (r.done ==>
            && r.session.lists.Some? && uuid !in r.session.lists.value
            && r.session.lists.value.Keys == s.lists.value.Keys - {uuid}
            && forall k :: k in r.session.lists.value ==> r.session.lists.value[k] == s.lists.value[k])
  {
  }

  /** A snapshot `storeInSession` wrote is always removed again under the
      lister's id, whatever the codec. */
  lemma StoreThenRemove(l: Lister, s: Session, overwrite: bool, c: Codec, generated: string)
    requires StoreInSession(l, s, overwrite, c).done
    ensures var stored := StoreInSession(l, s, overwrite, c).session;
      var r := RemoveFromSession(stored, l.id, c, generated);
      && r.done
      && r.session.lists == Some(s.lists.GetOr(map[]) - {l.id})
  {
    var data := Serialize(l, c);
    assert "id" in data && data["id"] == Str(l.id);
    UnserializeKeepsId(Fresh(generated), data, c, l.id);
    var before := s.lists.GetOr(map[]);
    assert before[l.id := data] - {l.id} == before - {l.id};
  }
}
