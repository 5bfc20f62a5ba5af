/**
 * `Element`: one column of a list row. Its value comes from a custom
 * callable, from a getter called on the row's object, or is the stored data
 * itself.
 */
module Elements {
  import opened Wrappers
  import opened Errors
  import opened Values
  import opened Helper

  datatype Element = Element(
    data: Value,
    name: string,
    labelText: string,
    elementMethod: string,
    callable: Value,
    custom: bool,
    isDefault: bool)

  /** The calls `getData` makes into code outside the model: the custom
      callable given the element, and a named getter on an object. `None`
      is a call that throws. */
  datatype Extractor = Extractor(
    callCustom: (Value, Element) -> Option<Value>,
    callMethod: (Value, string) -> Option<Value>)

  /** The getter an element calls when none is given: `get_<name>`
      camelized. */
  function DefaultMethod(name: string): string {
    Camelize("get_" + name, '_')
  }

  /** `new Element($name, $label, $method, $callable, $data)`;
      `isCallable` is PHP's `is_callable`. */
  function NewElement(name: string, labelText: string, methodName: string, callable: Value, data: Value, isCallable: Value -> bool): (r: Element)
    ensures r.name == name && r.labelText == labelText && r.callable == callable && r.data == data
    ensures r.custom == isCallable(callable)
    ensures r.isDefault <==> IsEmptyString(methodName) && !IsEmptyString(name) && !isCallable(callable)
  {
    var custom := isCallable(callable);
    if IsEmptyString(methodName) && !IsEmptyString(name) && !custom then
      Element(data, name, labelText, DefaultMethod(name), callable, custom, true)
    else
      Element(data, name, labelText, methodName, callable, custom, false)
  }

  /** `getData($raw)`. */
  function GetData(e: Element, raw: bool, x: Extractor): (r: Result<Value, Error>)
    ensures raw ==> r == Success(e.data)
    ensures !raw && e.custom ==> (r.Failure? <==> x.callCustom(e.callable, e).None?)
    ensures !raw && !e.custom && e.data.Obj? ==> (r.Failure? <==> x.callMethod(e.data, e.elementMethod).None?)
    ensures !raw && !e.custom && !e.data.Obj? ==> r == Success(e.data)
  {
    if !raw && e.custom then
      match x.callCustom(e.callable, e)
      case Some(v) => Success(v)
      case None => Failure(ElementCallableFailed)
    else if !raw && e.data.Obj? then
      match x.callMethod(e.data, e.elementMethod)
      case Some(v) => Success(v)
      case None => Failure(ElementMethodFailed)
    else Success(e.data)
  }

  function SetData(e: Element, data: Value): Element {
    e.(data := data)
  }

  function SetName(e: Element, name: string): Element {
    e.(name := name)
  }

  function SetLabel(e: Element, labelText: string): Element {
    e.(labelText := labelText)
  }

  /** `setMethod`. */
  function SetMethod(e: Element, methodName: string): (r: Element)
    ensures !r.isDefault && r.elementMethod == methodName
    ensures r.(elementMethod := e.elementMethod, isDefault := e.isDefault) == e
  {
    e.(elementMethod := methodName, isDefault := false)
  }

  /** `setCallable`: the custom flag is left as it is. */
  function SetCallable(e: Element, callable: Value): Element {
    e.(callable := callable)
  }

  /** `setCustom($state)`. */
  function SetCustom(e: Element, state: bool, isCallable: Value -> bool): (r: Element)
    ensures r.custom <==> state && isCallable(e.callable)
    ensures r.(custom := e.custom) == e
  {
    e.(custom := state && isCallable(e.callable))
  }

  // ---------------------------------------------------------------------
  // Lemmas

  /** An element named `myName` reads its data with `getMyName`. */
  lemma DefaultElementMethodExample(name: string)
    requires name == "myName"
    ensures DefaultMethod(name) == "get" + "MyName"
  {
    var a := "get";
    assert "get_" + name == a + ['_'] + name;
    CamelizeOneWordPrefix(a, name, '_');
    assert LcFirst(a) == "get";
    assert '_' !in name && ' ' !in name;
    CamelPassWithoutBreaks(name, '_');
    assert [ToUpper(name[0])] + name[1..] == "MyName";
  }

  /** The constructor derives the getter exactly when no method is given,
      the name is non-empty and the element is not custom. */
  lemma NewElementMethod(name: string, labelText: string, methodName: string, callable: Value, data: Value, isCallable: Value -> bool)
    ensures var e := NewElement(name, labelText, methodName, callable, data, isCallable);
      && (IsEmptyString(methodName) && !IsEmptyString(name) && !isCallable(callable) ==>
            e.isDefault && e.elementMethod == "get" + CamelPass(name, '_', true))
      && (!IsEmptyString(methodName) || IsEmptyString(name) || isCallable(callable) ==>
            !e.isDefault && e.elementMethod == methodName)
  {
    var a := "get";
    assert "get_" + name == a + ['_'] + name;
    CamelizeOneWordPrefix(a, name, '_');
    assert LcFirst(a) == "get";
  }

  /** Raw data reads back what was stored. */
  lemma SetDataThenGetRaw(e: Element, d: Value, x: Extractor)
    ensures GetData(SetData(e, d), true, x) == Success(d)
  {
  }

  /** Non-raw reads: the custom callable wins over the getter, the getter
      applies only to objects, and a throwing call raises ElementException. */
  lemma GetDataSources(e: Element, x: Extractor)
    ensures e.custom ==>
      (GetData(e, false, x) == if x.callCustom(e.callable, e).Some?
        then Success(x.callCustom(e.callable, e).value) else Failure(ElementCallableFailed))
    ensures !e.custom && e.data.Obj? ==>
      (GetData(e, false, x) == if x.callMethod(e.data, e.elementMethod).Some?
        then Success(x.callMethod(e.data, e.elementMethod).value) else Failure(ElementMethodFailed))
    ensures !e.custom && !e.data.Obj? ==> GetData(e, false, x) == Success(e.data)
  {
  }

  /** A custom flag can only be switched on while the callable is
      callable, and switching it off always succeeds. */
  lemma SetCustomNeedsCallable(e: Element, isCallable: Value -> bool)
    ensures SetCustom(e, true, isCallable).custom == isCallable(e.callable)
    ensures !SetCustom(e, false, isCallable).custom
  {
  }
}
