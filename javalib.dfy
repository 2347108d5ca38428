/**
 * The few behaviours of the Java platform that the mail builder relies on:
 * null references, String.trim(), the toString() of a Java list,
 * HashMap.get() and the order in which a HashMap hands out its keys.
 */
module JavaLib {

  /** A Java reference that may be null. */
  datatype Option<+T> = None | Some(value: T)

  /** The characters String.trim() strips from either end: every code up to U+0020. */
  predicate IsTrimmable(c: char) {
    c <= ' '
  }

  /** What is left after the leading trimmable characters are removed. */
  function TrimStart(s: string): (r: string)
    ensures |r| <= |s| && r == s[|s| - |r|..]
    ensures r == [] || !IsTrimmable(r[0])
    ensures forall i :: 0 <= i < |s| - |r| ==> IsTrimmable(s[i])
    decreases |s|
  {
    if s != [] && IsTrimmable(s[0]) then TrimStart(s[1..]) else s
  }

  /** What is left after the trailing trimmable characters are removed. */
  function TrimEnd(s: string): (r: string)
    ensures |r| <= |s| && r == s[..|r|]
    ensures r == [] || !IsTrimmable(r[|r| - 1])
    ensures forall i :: |r| <= i < |s| ==> IsTrimmable(s[i])
    decreases |s|
  {
    if s != [] && IsTrimmable(s[|s| - 1]) then TrimEnd(s[..|s| - 1]) else s
  }

  /** String.trim(). */
  function Trim(s: string): (r: string)
    ensures |r| <= |s|
    ensures r == [] || (!IsTrimmable(r[0]) && !IsTrimmable(r[|r| - 1]))
  {
    TrimEnd(TrimStart(s))
  }

  /** `s.trim().isEmpty()` holds exactly when every character of `s` is trimmable. */
  lemma TrimIsEmptyIff(s: string)
    ensures Trim(s) == [] <==> forall i :: 0 <= i < |s| ==> IsTrimmable(s[i])
  {
    var t := TrimStart(s);
    if t != [] {
      assert !IsTrimmable(s[|s| - |t|]);
    }
  }

  /** The elements of `xs` separated by `sep`, built left to right as a loop over `xs` does. */
  function Join(xs: seq<string>, sep: string): string
    decreases |xs|
  {
    if |xs| == 0 then ""
    else if |xs| == 1 then xs[0]
    else Join(xs[..|xs| - 1], sep) + sep + xs[|xs| - 1]
  }

  /** Join read from the front: the first element, then a separator before each later one. */
  lemma {:induction false} JoinCons(x: string, xs: seq<string>, sep: string)
    ensures Join([x] + xs, sep) == if xs == [] then x else x + sep + Join(xs, sep)
    decreases |xs|
  {
    if |xs| == 1 {
      assert ([x] + xs)[..1] == [x];
    } else if |xs| > 1 {
      var ys := [x] + xs;
      assert ys[..|ys| - 1] == [x] + xs[..|xs| - 1];
      JoinCons(x, xs[..|xs| - 1], sep);
    }
  }

  /** AbstractCollection.toString(): "[a, b, c]". */
  function ListToString(xs: seq<string>): (r: string)
    ensures |r| >= 2 && r[0] == '[' && r[|r| - 1] == ']'
    ensures r[1..|r| - 1] == Join(xs, ", ")
  {
    "[" + Join(xs, ", ") + "]"
  }

  /** HashMap.get(): the value stored under `k`, or null when there is none. */
  function Lookup<K, V>(m: map<K, Option<V>>, k: K): (r: Option<V>)
    ensures r.Some? ==> k in m && m[k] == r
    ensures k in m ==> r == m[k]
  {
    if k in m then m[k] else None
  }

  /** `order` lists every key of `keys` exactly once: the order of a HashMap's key set. */
  predicate IsEnumeration<T(==)>(order: seq<T>, keys: set<T>) {
    && (forall i, j :: 0 <= i < j < |order| ==> order[i] != order[j])
    && (forall k :: k in keys ==> k in order)
    && (forall i :: 0 <= i < |order| ==> order[i] in keys)
  }
}
