/** Go's `m[k] = append(m[k], v)`: a map that holds, key by key, a part of a list. */
module Parts {

  /** What the map holds for `k`; nil when there is nothing. */
  function PartAt<T>(m: map<int, seq<T>>, k: int): seq<T> {
    if k in m then m[k] else []
  }

  /** `m` holds the parts that are not empty. */
  ghost predicate Holds<T>(m: map<int, seq<T>>, parts: int -> seq<T>) {
    && (forall k :: k in m <==> parts(k) != [])
    && (forall k :: k in m ==> m[k] == parts(k))
  }

  lemma HoldsAt<T>(m: map<int, seq<T>>, parts: int -> seq<T>, k: int)
    requires Holds(m, parts)
    ensures PartAt(m, k) == parts(k) && (k in m <==> parts(k) != [])
  {
  }

  /** One append. */
  lemma HoldsNext<T>(m: map<int, seq<T>>, parts: int -> seq<T>, more: int -> seq<T>, k: int, v: T)
    requires Holds(m, parts)
    requires forall l :: more(l) == parts(l) + (if l == k then [v] else [])
    ensures Holds(m[k := PartAt(m, k) + [v]], more)
  {
    forall l
      ensures l != k ==> more(l) == parts(l)
    {
      assert parts(l) + [] == parts(l);
    }
  }
}
