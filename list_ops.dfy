/** The array expressions the client-side stores build their new lists with:
    `list.map(x => idOf(x) === id ? f(x) : x)` and
    `list.filter(x => idOf(x) !== id)`. */
module ListOps {

  /** Applies `f` to every entry whose id is `id`, leaving the others as they
      are, position by position. */
  function MapWhereId<T, K(==)>(s: seq<T>, id: K, idOf: T -> K, f: T -> T): (r: seq<T>)
    ensures |r| == |s|
    ensures forall i :: 0 <= i < |s| && idOf(s[i]) == id ==> r[i] == f(s[i])
    ensures forall i :: 0 <= i < |s| && idOf(s[i]) != id ==> r[i] == s[i]
  {
    if s == [] then []
    else [if idOf(s[0]) == id then f(s[0]) else s[0]] + MapWhereId(s[1..], id, idOf, f)
  }

  /** Drops every entry whose id is `id`. */
  function RemoveWhereId<T, K(==)>(s: seq<T>, id: K, idOf: T -> K): (r: seq<T>)
    ensures |r| <= |s|
    ensures forall x :: x in r ==> x in s && idOf(x) != id
    ensures forall x :: x in s && idOf(x) != id ==> x in r
  {
    if s == [] then []
    else if idOf(s[0]) == id then RemoveWhereId(s[1..], id, idOf)
    else [s[0]] + RemoveWhereId(s[1..], id, idOf)
  }

  /** Removing works piecewise, so the entries that stay keep their order. */
  lemma {:induction false} RemoveWhereIdConcat<T, K>(a: seq<T>, b: seq<T>, id: K, idOf: T -> K)
    ensures RemoveWhereId(a + b, id, idOf) == RemoveWhereId(a, id, idOf) + RemoveWhereId(b, id, idOf)
  {
    if a != [] {
      assert (a + b)[1..] == a[1..] + b;
      RemoveWhereIdConcat(a[1..], b, id, idOf);
    } else {
      assert a + b == b;
    }
  }

  /** When no entry carries the id, removing it changes nothing. */
  lemma {:induction false} RemoveAbsentId<T, K>(s: seq<T>, id: K, idOf: T -> K)
    requires forall x :: x in s ==> idOf(x) != id
    ensures RemoveWhereId(s, id, idOf) == s
  {
    if s != [] {
      assert s[0] in s;
      RemoveAbsentId(s[1..], id, idOf);
    }
  }

  /** The number of entries whose id is `id`. */
  function CountId<T, K(==)>(s: seq<T>, id: K, idOf: T -> K): nat {
    if s == [] then 0 else (if idOf(s[0]) == id then 1 else 0) + CountId(s[1..], id, idOf)
  }

  /** Every entry that carries the id is gone, and no other entry is: the
      length drops by the number of entries that carry it. */
  lemma {:induction false} RemoveWhereIdLength<T, K>(s: seq<T>, id: K, idOf: T -> K)
    ensures |RemoveWhereId(s, id, idOf)| + CountId(s, id, idOf) == |s|
  {
    if s != [] {
      RemoveWhereIdLength(s[1..], id, idOf);
    }
  }
}
