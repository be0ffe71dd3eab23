/** Small datatypes shared by every module. */
module Prelude {

  datatype Option<+T> = None | Some(value: T) {

    function GetOr(default: T): T {
      match this
      case Some(v) => v
      case None => default
    }
  }

  datatype Result<+T, +E> = Ok(value: T) | Err(error: E)

  /** The entry of a map, or None. */
  function Get<K, V>(m: map<K, V>, k: K): Option<V> {
    if k in m then Some(m[k]) else None
  }

  /** An order in which a hash set or map is iterated: every element, once. */
  predicate Enumerates<T(==)>(order: seq<T>, s: set<T>) {
    && (forall x | x in s :: x in order)
    && (forall i | 0 <= i < |order| :: order[i] in s)
    && (forall i, j | 0 <= i < j < |order| :: order[i] != order[j])
  }

  /** Any such order. */
  method Enumerate<T(==)>(s: set<T>) returns (order: seq<T>)
    ensures Enumerates(order, s)
  {
    order := [];
    var left := s;
    while left != {}
      invariant left <= s
      invariant forall x | x in s :: x in left || x in order
      invariant forall i | 0 <= i < |order| :: order[i] in s && order[i] !in left
      invariant forall i, j | 0 <= i < j < |order| :: order[i] != order[j]
    {
      var x := Pick(left);
      order := order + [x];
      left := left - {x};
    }
  }

  /** What makes a set no subset. */
  lemma Outsider<T>(a: set<T>, b: set<T>) returns (x: T)
    requires !(a <= b)
    ensures x in a && x !in b
  {
    x :| x in a && x !in b;
  }

  /** The next element a hash set or map yields: any of them. */
  method Pick<T>(s: set<T>) returns (x: T)
    requires s != {}
    ensures x in s
  {
    x :| x in s;
  }
}
