/**
 * `Filter`: one filter of a list, its form type, the query method it calls
 * and the order of checks in `apply`.
 */
module Filters {
  import opened Wrappers
  import opened Errors
  import opened Values
  import opened Helper
  import opened Queries

  /** The Symfony form type a filter resolves to (`getType(true)`). */
  datatype FormType = ChoiceType | CheckboxType | RadioType | TextType

  const TypeText := "text"
  const TypeSelect := "select"
  const TypeMulti := "multi"
  const TypeCheckbox := "checkbox"
  const TypeRadio := "radio"

  /** The stored type is kept as the PHP value it was given: the type check
      compares loosely, the type resolution strictly. */
  datatype Filter = Filter(
    kind: Value,
    name: string,
    labelText: string,
    value: Value,
    values: seq<(string, Value)>,
    filterMethod: string,
    isDefault: bool)

  /** `checkType`: PHP 7 `in_array` (loose `==`) against the five types. */
  predicate KnownType(t: Value) {
    LooseEqualsWord(t, TypeText) || LooseEqualsWord(t, TypeCheckbox) || LooseEqualsWord(t, TypeMulti)
    || LooseEqualsWord(t, TypeRadio) || LooseEqualsWord(t, TypeSelect)
  }

  /** The method a filter calls when none is given: `filter_by_<name>`
      camelized. */
  function DefaultMethod(name: string): string {
    Camelize("filter_by_" + name, '_')
  }

  /** `new Filter($type, $name, $label, $method, $value, $values)`. */
  function NewFilter(kind: Value, name: string, labelText: string, methodName: string, value: Value, values: seq<(string, Value)>): (r: Result<Filter, Error>)
    ensures r.Failure? <==> !KnownType(kind)
    ensures r.Failure? ==> r.error == InvalidFilterType
    ensures r.Success? ==>
      && r.value.kind == kind && r.value.name == name && r.value.labelText == labelText
      && r.value.value == value && r.value.values == values
    ensures r.Success? ==> (r.value.isDefault <==> IsEmptyString(methodName) && !IsEmptyString(name))
  {
    if !KnownType(kind) then Failure(InvalidFilterType)
    else if IsEmptyString(methodName) && !IsEmptyString(name) then
      Success(Filter(kind, name, labelText, value, values, DefaultMethod(name), true))
    else
      Success(Filter(kind, name, labelText, value, values, methodName, false))
  }

  /** `getType(true)`: the order of the tests matters, a checkbox or radio
      with choices is a choice. */
  function ResolvedType(f: Filter): FormType {
    if (f.kind == Str(TypeCheckbox) && |f.values| > 0)
      || (f.kind == Str(TypeRadio) && |f.values| > 0)
      || f.kind == Str(TypeSelect)
      || f.kind == Str(TypeMulti)
    then ChoiceType
    else if f.kind == Str(TypeCheckbox) then CheckboxType
    else if f.kind == Str(TypeRadio) then RadioType
    else TextType
  }

  /** `getType(false)`. */
  function RawType(f: Filter): Value {
    f.kind
  }

  /** `setType`: the type is stored before it is checked, so a rejected type
      stays on the filter. */
  function SetType(f: Filter, t: Value): (r: Effect<Filter>)
    ensures r.state == f.(kind := t)
    ensures r.raised.Some? <==> !KnownType(t)
    ensures r.raised.Some? ==> r.raised.value == InvalidFilterType
  {
    Effect(f.(kind := t), if KnownType(t) then None else Some(InvalidFilterType))
  }

  function SetName(f: Filter, name: string): Filter {
    f.(name := name)
  }

  function SetLabel(f: Filter, labelText: string): Filter {
    f.(labelText := labelText)
  }

  function SetValue(f: Filter, v: Value): Filter {
    f.(value := v)
  }

  function SetValues(f: Filter, values: seq<(string, Value)>): Filter {
    f.(values := values)
  }

  /** `setFilterMethod`. */
  function SetFilterMethod(f: Filter, methodName: string): (r: Filter)
    ensures !r.isDefault && r.filterMethod == methodName
    ensures r.(filterMethod := f.filterMethod, isDefault := f.isDefault) == f
  {
    f.(filterMethod := methodName, isDefault := false)
  }

  /** `apply($lister, $extraArguments)`, given the lister's query (absent
      when none is assigned). The result is the query after the call. */
  function Apply(f: Filter, query: Option<Query>, extra: seq<Value>): (r: Result<Query, Error>)
    ensures r.Failure? <==>
      (ResolvedType(f) == ChoiceType && |f.values| == 0)
      || query.None?
      || !HasMethod(query.value, f.filterMethod)
    ensures ResolvedType(f) == ChoiceType && |f.values| == 0 ==> r == Failure(MissingChoiceValues)
    ensures !(ResolvedType(f) == ChoiceType && |f.values| == 0) && query.None? ==> r == Failure(FilterQueryMissing)
    ensures !(ResolvedType(f) == ChoiceType && |f.values| == 0) && query.Some? && !HasMethod(query.value, f.filterMethod) ==>
      r == Failure(FilterMethodUndefined)
    ensures r.Success? && f.value == Null ==> r.value == query.value
    ensures r.Success? && f.value != Null ==>
      r.value.methods == query.value.methods && r.value.log == query.value.log + [Call(f.filterMethod, [f.value] + extra)]
  {
    if ResolvedType(f) == ChoiceType && |f.values| == 0 then Failure(MissingChoiceValues)
    else if query.None? then Failure(FilterQueryMissing)
    else if !HasMethod(query.value, f.filterMethod) then Failure(FilterMethodUndefined)
    else Success(RawApply(f, query.value, [f.value] + extra))
  }

  /** `rawApply`: a null value calls nothing. */
  function RawApply(f: Filter, q: Query, args: seq<Value>): Query {
    if f.value != Null then Invoke(q, f.filterMethod, args) else q
  }

  // ---------------------------------------------------------------------
  // Lemmas

  lemma TypeNamesAreWords()
    ensures IsWord(TypeText) && IsWord(TypeSelect) && IsWord(TypeMulti)
    ensures IsWord(TypeCheckbox) && IsWord(TypeRadio)
  {
  }

  /** The five type names are accepted, other strings are refused; under
      PHP 7's loose comparison `true` and `0` are accepted too. */
  lemma KnownTypeOfStrings(s: string)
    ensures KnownType(Str(s)) <==> s in {TypeText, TypeSelect, TypeMulti, TypeCheckbox, TypeRadio}
    ensures KnownType(Bool(true)) && KnownType(Int(0)) && !KnownType(Null) && !KnownType(Int(1))
  {
    TypeNamesAreWords();
  }

  /** Constructing a filter, or calling `setType`, with an unknown type
      raises FilterException. */
  lemma UnknownTypeRejected(kind: Value, name: string, labelText: string, methodName: string, value: Value, values: seq<(string, Value)>, f: Filter)
    requires !KnownType(kind)
    ensures NewFilter(kind, name, labelText, methodName, value, values) == Failure(InvalidFilterType)
    ensures SetType(f, kind).raised == Some(InvalidFilterType)
  {
  }

  /** The constructor derives the method from the name exactly when no
      method is given and the name is non-empty; otherwise it keeps the
      given method and clears the default flag. */
  lemma NewFilterMethod(kind: Value, name: string, labelText: string, methodName: string, value: Value, values: seq<(string, Value)>)
    requires KnownType(kind)
    ensures var f := NewFilter(kind, name, labelText, methodName, value, values).value;
      && (IsEmptyString(methodName) && !IsEmptyString(name) ==>
            f.isDefault && f.filterMethod == "filterBy" + CamelPass(name, '_', true))
      && (!IsEmptyString(methodName) || IsEmptyString(name) ==> !f.isDefault && f.filterMethod == methodName)
  {
    var a, b := "filter", "by";
    assert "filter_by_" + name == a + ['_'] + b + ['_'] + name;
    CamelizeTwoWordPrefix(a, b, name, '_');
    assert LcFirst(a) == "filter";
    assert UcFirst(b) == "By";
  }

  /** The form type table: a choice exactly for select and multi, and for
      checkbox or radio with choices; otherwise checkbox, radio, or text. */
  lemma ResolvedTypeTable(f: Filter)
    ensures ResolvedType(f) == ChoiceType <==>
      f.kind in {Str(TypeSelect), Str(TypeMulti)}
      || (f.kind in {Str(TypeCheckbox), Str(TypeRadio)} && |f.values| > 0)
    ensures ResolvedType(f) == CheckboxType <==> f.kind == Str(TypeCheckbox) && |f.values| == 0
    ensures ResolvedType(f) == RadioType <==> f.kind == Str(TypeRadio) && |f.values| == 0
    ensures ResolvedType(f) == TextType <==> !(f.kind in {Str(TypeSelect), Str(TypeMulti), Str(TypeCheckbox), Str(TypeRadio)})
  {
  }

  /** `getType(false)` returns the stored type, whatever it was set to. */
  lemma RawTypeIsStored(f: Filter, t: Value, kind: Value, name: string, labelText: string, methodName: string, value: Value, values: seq<(string, Value)>)
    ensures RawType(SetType(f, t).state) == t
    ensures NewFilter(kind, name, labelText, methodName, value, values).Success? ==>
      RawType(NewFilter(kind, name, labelText, methodName, value, values).value) == kind
  {
  }
}
