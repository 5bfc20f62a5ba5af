/**
 * `Sorter`: one sortable column, the query method it calls and the
 * direction it holds.
 */
module Sorters {
  import opened Wrappers
  import opened Errors
  import opened Values
  import opened Helper
  import opened Queries

  datatype Sorter = Sorter(
    name: string,
    labelText: string,
    value: Value,
    sorterMethod: string,
    isDefault: bool)

  /** The method a sorter calls when none is given: `order_by_<name>`
      camelized. */
  function DefaultMethod(name: string): string {
    Camelize("order_by_" + name, '_')
  }

  /** `new Sorter($name, $label, $method, $value)`. */
  function NewSorter(name: string, labelText: string, methodName: string, value: Value): (r: Sorter)
    ensures r.name == name && r.labelText == labelText && r.value == value
    ensures r.isDefault <==> IsEmptyString(methodName) && !IsEmptyString(name)
  {
    if IsEmptyString(methodName) && !IsEmptyString(name) then
      Sorter(name, labelText, value, DefaultMethod(name), true)
    else
      Sorter(name, labelText, value, methodName, false)
  }

  function SetName(s: Sorter, name: string): Sorter {
    s.(name := name)
  }

  function SetLabel(s: Sorter, labelText: string): Sorter {
    s.(labelText := labelText)
  }

  function SetValue(s: Sorter, v: Value): Sorter {
    s.(value := v)
  }

  /** `setSorterMethod`. */
  function SetSorterMethod(s: Sorter, methodName: string): (r: Sorter)
    ensures !r.isDefault && r.sorterMethod == methodName
    ensures r.(sorterMethod := s.sorterMethod, isDefault := s.isDefault) == s
  {
    s.(sorterMethod := methodName, isDefault := false)
  }

  /** The value names a direction: PHP 7 `in_array` (loose `==`) against
      `ASC` and `DESC`. */
  predicate IsDirection(v: Value) {
    LooseEqualsWord(v, Asc) || LooseEqualsWord(v, Desc)
  }

  /** `apply($lister, $extraArguments)`, given the lister's query: `None`
      is the `null` returned when the sorter holds no direction. The method
      is called without checking that the query has it. */
  function Apply(s: Sorter, query: Option<Query>, extra: seq<Value>): (r: Result<Option<Query>, Error>)
    ensures !IsDirection(s.value) ==> r == Success(None)
    ensures IsDirection(s.value) && query.None? ==> r == Failure(SorterQueryMissing)
    ensures IsDirection(s.value) && query.Some? ==>
      r.Success? && r.value.Some?
      && r.value.value.methods == query.value.methods
      && r.value.value.log == query.value.log + [Call(s.sorterMethod, [s.value] + extra)]
  {
    if IsDirection(s.value) then
      if query.Some? then
        // an array value never equals a direction, so it is always wrapped
        Success(Some(Invoke(query.value, s.sorterMethod, [s.value] + extra)))
      else Failure(SorterQueryMissing)
    else Success(None)
  }

  // ---------------------------------------------------------------------
  // Lemmas

  lemma DirectionsAreWords()
    ensures IsWord(Asc) && IsWord(Desc)
  {
  }

  /** Which values count as a direction: the two strings exactly, plus
      `true` and `0` under PHP 7's loose comparison. */
  lemma DirectionValues(t: string)
    ensures IsDirection(Str(t)) <==> t == Asc || t == Desc
    ensures IsDirection(Bool(true)) && IsDirection(Int(0))
    ensures !IsDirection(Null) && !IsDirection(Bool(false)) && !IsDirection(Str(""))
  {
    DirectionsAreWords();
  }

  /** The constructor derives the method exactly when no method is given
      and the name is non-empty; otherwise it keeps the given method. */
  lemma NewSorterMethod(name: string, labelText: string, methodName: string, value: Value)
    ensures var s := NewSorter(name, labelText, methodName, value);
      && (IsEmptyString(methodName) && !IsEmptyString(name) ==>
            s.isDefault && s.sorterMethod == "orderBy" + CamelPass(name, '_', true))
      && (!IsEmptyString(methodName) || IsEmptyString(name) ==> !s.isDefault && s.sorterMethod == methodName)
  {
    var a, b := "order", "by";
    assert "order_by_" + name == a + ['_'] + b + ['_'] + name;
    CamelizeTwoWordPrefix(a, b, name, '_');
    assert LcFirst(a) == "order";
    assert UcFirst(b) == "By";
  }

  /** `new Sorter()`: everything empty, no value, and no default method. */
  lemma NewSorterDefaults()
    ensures var s := NewSorter("", "", "", Null);
      s.name == "" && s.labelText == "" && s.sorterMethod == "" && s.value == Null && !s.isDefault
  {
  }

  /** Without a direction nothing is checked and the query is untouched,
      whether or not there is one. */
  lemma ApplyWithoutDirection(s: Sorter, q: Query, extra: seq<Value>)
    requires !IsDirection(s.value)
    ensures Apply(s, None, extra) == Success(None)
    ensures Apply(s, Some(q), extra) == Success(None)
  {
  }

  /** With a direction, `apply` adds exactly one call: the sorter method with
      the direction first. */
  lemma ApplyWithDirection(s: Sorter, q: Query, extra: seq<Value>)
    requires IsDirection(s.value)
    ensures Apply(s, None, extra).Failure?
    ensures var r := Apply(s, Some(q), extra).value.value;
      && |r.log| == |q.log| + 1 && r.log[..|q.log|] == q.log
      && r.log[|q.log|].name == s.sorterMethod && r.log[|q.log|].args == [s.value] + extra
  {
  }
}
