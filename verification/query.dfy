/**
 * The ORM query a lister works on, reduced to what the bundle observes:
 * which methods it offers and the calls made on it. `method_exists` is
 * membership in `methods`; calling a method appends to `log`.
 */
module Queries {
  import opened Values

  datatype Call = Call(name: string, args: seq<Value>)

  datatype Query = Query(methods: set<string>, log: seq<Call>)

  predicate HasMethod(q: Query, methodName: string) {
    methodName in q.methods
  }

  /** `call_user_func_array([$query, $method], $args)`: the fluent filter
      and order methods record themselves and return the query. */
  function Invoke(q: Query, methodName: string, args: seq<Value>): (r: Query)
    ensures r.methods == q.methods
    ensures |r.log| == |q.log| + 1 && r.log[..|q.log|] == q.log
    ensures r.log[|q.log|] == Call(methodName, args)
  {
    q.(log := q.log + [Call(methodName, args)])
  }

  /** `clear()`: every condition added so far is dropped. */
  function Clear(q: Query): (r: Query)
    ensures r.methods == q.methods && |r.log| == 0
  {
    q.(log := [])
  }

  /** `Criteria::ASC` and `Criteria::DESC`. */
  const Asc := "ASC"
  const Desc := "DESC"

  /** `Criteria::LIKE`. */
  const Like := " LIKE "
}
