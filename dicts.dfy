/** The dictionary-filling loops the rank procedures are built from, each a
    `for key in keys: dist[key] = ...` or `dist[key] += ...` over a set of keys. */
module Dicts {

  /** `for key in keys: dist[key] = value`: the given keys now map to `value`,
      every other entry is kept. */
  method AssignAll<K>(dist: map<K, real>, keys: set<K>, value: real) returns (r: map<K, real>)
    ensures r.Keys == dist.Keys + keys
    ensures forall k | k in r :: r[k] == if k in keys then value else dist[k]
  {
    r := dist;
    var todo := keys;
    while todo != {}
      invariant todo <= keys
      invariant forall k :: k in r <==> k in dist || (k in keys && k !in todo)
      invariant forall k | k in r :: r[k] == if k in keys && k !in todo then value else dist[k]
      decreases |todo|
    {
      var k :| k in todo;
      r := r[k := value];
      todo := todo - {k};
    }
  }

  /** `for key in keys: dist[key] += amount`, for keys already in the dictionary. */
  method AddAll<K>(dist: map<K, real>, keys: set<K>, amount: real) returns (r: map<K, real>)
    requires keys <= dist.Keys
    ensures r.Keys == dist.Keys
    ensures forall k | k in r :: r[k] == dist[k] + if k in keys then amount else 0.0
  {
    r := dist;
    var todo := keys;
    while todo != {}
      invariant todo <= keys
      invariant r.Keys == dist.Keys
      invariant forall k | k in r :: r[k] == dist[k] + if k in keys && k !in todo then amount else 0.0
      decreases |todo|
    {
      var k :| k in todo;
      r := r[k := r[k] + amount];
      todo := todo - {k};
    }
  }
}
