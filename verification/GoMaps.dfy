/** Go ranges over a map in an order of its own; a theorem about such a loop holds for every order. */
module GoMaps {
  /** order is a possible iteration of m: every key once. */
  ghost predicate Iterates(order: seq<string>, m: map<string, string>) {
    && (forall i, j :: 0 <= i < j < |order| ==> order[i] != order[j])
    && (forall k :: k in order <==> k in m)
  }

  /** Every finite set has an enumeration. */
  lemma {:induction false} EnumerateSet(keys: set<string>) returns (order: seq<string>)
    ensures forall i, j :: 0 <= i < j < |order| ==> order[i] != order[j]
    ensures forall k :: k in order <==> k in keys
  {
    if keys == {} {
      order := [];
    } else {
      var k :| k in keys;
      var rest := EnumerateSet(keys - {k});
      order := [k] + rest;
    }
  }
}
