/** Helpers shared by the backend controllers and the frontend code: an optional
    value (JavaScript's `undefined`/`null` versus a present value), the
    whitespace class of JavaScript's `\s` and `trim`, ASCII lower-casing,
    substring search, and the enumeration of a table's keys in an order the
    store does not promise. */
module Common {

  datatype Option<+T> = None | Some(value: T) {
    function GetOr(default: T): T {
      match this
      case Some(v) => v
      case None => default
    }
  }

  /** The characters matched by `\s` in a JavaScript regular expression and
      removed by `String.prototype.trim`: tab, line feed, vertical tab, form
      feed, carriage return, space, no-break space and the Unicode space
      separators, line and paragraph separators and the byte-order mark. */
  predicate IsWhitespace(c: char) {
    var n := c as int;
    (9 <= n <= 13) || n == 32 || n == 0xA0 || n == 0x1680 || (0x2000 <= n <= 0x200A)
    || n == 0x2028 || n == 0x2029 || n == 0x202F || n == 0x205F || n == 0x3000 || n == 0xFEFF
  }

  /** `key` occurs in `s` starting at position `i`. */
  predicate OccursAt(s: string, key: string, i: int) {
    0 <= i <= |s| - |key| && s[i..i + |key|] == key
  }

  predicate HasNonWhitespace(s: string) {
    exists i :: 0 <= i < |s| && !IsWhitespace(s[i])
  }

  /** Drops the leading whitespace. */
  function TrimStart(s: string): (r: string)
    ensures |r| <= |s| && r == s[|s| - |r|..]
    ensures forall i :: 0 <= i < |s| - |r| ==> IsWhitespace(s[i])
    ensures r == [] || !IsWhitespace(r[0])
  {
    if s != [] && IsWhitespace(s[0]) then TrimStart(s[1..]) else s
  }

  /** Drops the trailing whitespace. */
  function TrimEnd(s: string): (r: string)
    ensures |r| <= |s| && r == s[..|r|]
    ensures forall i :: |r| <= i < |s| ==> IsWhitespace(s[i])
    ensures r == [] || !IsWhitespace(r[|r| - 1])
  {
    if s != [] && IsWhitespace(s[|s| - 1]) then TrimEnd(s[..|s| - 1]) else s
  }

  /** `String.prototype.trim`: the leading and the trailing whitespace
      dropped. The result is a factor of `s` that neither starts nor ends
      with whitespace, and it is empty exactly when `s` is all whitespace. */
  function Trim(s: string): (r: string)
    ensures exists i :: OccursAt(s, r, i)
    ensures r == [] || (!IsWhitespace(r[0]) && !IsWhitespace(r[|r| - 1]))
    ensures r != [] <==> HasNonWhitespace(s)
  {
    var left := TrimStart(s);
    var r := TrimEnd(left);
    TrimIsTrimmedFactor(s, left, r);
    r
  }

  /** Given what `TrimStart` and `TrimEnd` promise, the trimmed string sits
      where the leading whitespace ends, neither starts nor ends with
      whitespace, and is empty exactly when nothing but whitespace was
      there. */
  lemma TrimIsTrimmedFactor(s: string, left: string, r: string)
    requires |left| <= |s| && left == s[|s| - |left|..]
    requires forall i :: 0 <= i < |s| - |left| ==> IsWhitespace(s[i])
    requires left == [] || !IsWhitespace(left[0])
    requires |r| <= |left| && r == left[..|r|]
    requires forall i :: |r| <= i < |left| ==> IsWhitespace(left[i])
    requires r == [] || !IsWhitespace(r[|r| - 1])
    ensures OccursAt(s, r, |s| - |left|)
    ensures r == [] || (!IsWhitespace(r[0]) && !IsWhitespace(r[|r| - 1]))
    ensures r != [] <==> HasNonWhitespace(s)
  {
    var d := |s| - |left|;
    assert s[d..d + |r|] == r;
    if r != [] {
      assert r[0] == left[0] == s[d];
    } else {
      assert left == [];
    }
  }

  /** ASCII case folding, the part of `toLowerCase` this model keeps. */
  function LowerChar(c: char): (r: char)
    ensures ('A' <= c <= 'Z') ==> r as int == c as int + 32
    ensures !('A' <= c <= 'Z') ==> r == c
    ensures IsWhitespace(r) <==> IsWhitespace(c)
  {
    if 'A' <= c <= 'Z' then (c as int + 32) as char else c
  }

  function Lower(s: string): (r: string)
    ensures |r| == |s| && forall i :: 0 <= i < |s| ==> r[i] == LowerChar(s[i])
  {
    if s == [] then [] else [LowerChar(s[0])] + Lower(s[1..])
  }

  predicate StartsWith(s: string, prefix: string) {
    |prefix| <= |s| && s[..|prefix|] == prefix
  }

  /** `String.prototype.includes`: does `key` occur in `s`, trying the
      positions from the left. */
  function Contains(s: string, key: string): bool
    decreases |s|
  {
    StartsWith(s, key) || (s != [] && Contains(s[1..], key))
  }

  /** An occurrence after the first character is an occurrence in the tail,
      one position earlier. */
  lemma ShiftOccurrence(s: string, key: string, i: int)
    requires s != [] && 1 <= i
    ensures OccursAt(s, key, i) <==> OccursAt(s[1..], key, i - 1)
  {
    if 0 <= i <= |s| - |key| {
      var here := s[i..i + |key|];
      var there := s[1..][i - 1..i - 1 + |key|];
      assert |here| == |there|;
      assert forall k :: 0 <= k < |here| ==> here[k] == s[i + k] == there[k];
      assert here == there;
    }
  }

  /** `Contains` finds exactly the positions where `key` occurs. */
  lemma {:induction false} ContainsAt(s: string, key: string)
    ensures Contains(s, key) <==> exists i :: OccursAt(s, key, i)
    decreases |s|
  {
    if StartsWith(s, key) {
      assert OccursAt(s, key, 0);
    } else if s != [] {
      ContainsAt(s[1..], key);
      if Contains(s[1..], key) {
        var i :| OccursAt(s[1..], key, i);
        ShiftOccurrence(s, key, i + 1);
      } else {
        forall i | OccursAt(s, key, i) && i > 0 ensures false {
          ShiftOccurrence(s, key, i);
        }
      }
    }
  }

  /** An occurrence of `inner` in `middle` and of `middle` in `s` is an
      occurrence of `inner` in `s`. */
  lemma ContainsTransitive(s: string, middle: string, inner: string)
    requires Contains(s, middle) && Contains(middle, inner)
    ensures Contains(s, inner)
  {
    ContainsAt(s, middle);
    ContainsAt(middle, inner);
    ContainsAt(s, inner);
    var i :| OccursAt(s, middle, i);
    var j :| OccursAt(middle, inner, j);
    forall k | 0 <= k < |inner|
      ensures s[i + j + k] == inner[k]
    {
      assert middle[j + k] == inner[k];
      assert s[i + (j + k)] == middle[j + k];
    }
    assert s[i + j..i + j + |inner|] == inner;
    assert OccursAt(s, inner, i + j);
  }

  /** The rows stored under the given keys, in the same order. */
  function RowsOf<K, V>(rows: map<K, V>, ids: seq<K>): (r: seq<V>)
    requires forall k :: 0 <= k < |ids| ==> ids[k] in rows
    ensures |r| == |ids|
    ensures forall k :: 0 <= k < |ids| ==> r[k] == rows[ids[k]]
  {
    if ids == [] then [] else [rows[ids[0]]] + RowsOf(rows, ids[1..])
  }

  /** The rows a database read returns when the query imposes no order: every
      key exactly once, in an order the caller cannot predict. */
  method EnumerateKeys<K(==)>(keys: set<K>) returns (s: seq<K>)
    ensures |s| == |keys|
    ensures forall k :: k in keys <==> k in s
    ensures forall i, j :: 0 <= i < j < |s| ==> s[i] != s[j]
  {
    s := [];
    var rest := keys;
    while rest != {}
      invariant rest <= keys
      invariant forall k :: k in keys <==> k in rest || k in s
      invariant forall k :: k in rest ==> k !in s
      invariant forall i, j :: 0 <= i < j < |s| ==> s[i] != s[j]
      invariant |s| + |rest| == |keys|
      decreases rest
    {
      var k :| k in rest;
      s := s + [k];
      rest := rest - {k};
    }
  }
}
