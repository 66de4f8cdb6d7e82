/**
 * The values a probe returns once its JSON output is parsed (Python's
 * `json.loads`), and the Python exceptions the modelled code can raise.
 */
module Json {

  /** A parsed JSON value; `JNull` is Python's `None`. Objects are keyed by strings. */
  datatype Json =
    | JNull
    | JBool(b: bool)
    | JInt(i: int)
    | JStr(s: string)
    | JList(items: seq<Json>)
    | JObject(fields: map<string, Json>)

  /** One subscript key: a dictionary key or a (possibly negative) list index. */
  datatype Key = KStr(name: string) | KIndex(index: int)

  /** The exceptions the modelled code lets escape. */
  datatype PyError = IndexError | AttributeError

  datatype Result<+T> = Ok(value: T) | Err(error: PyError)

  /** The integer a boolean stands for in Python arithmetic and comparison. */
  function BoolValue(b: bool): int {
    if b then 1 else 0
  }

  /**
   * Python's `==` on parsed JSON values: a boolean equals the integer it
   * stands for (`True == 1`, `False == 0`), lists compare element by element
   * and dictionaries by key set and values, at any depth.
   */
  predicate PyEq(a: Json, b: Json)
    decreases a
  {
    match (a, b)
    case (JNull, JNull) => true
    case (JBool(x), JBool(y)) => x == y
    case (JBool(x), JInt(j)) => BoolValue(x) == j
    case (JInt(i), JBool(y)) => i == BoolValue(y)
    case (JInt(i), JInt(j)) => i == j
    case (JStr(s), JStr(t)) => s == t
    case (JList(xs), JList(ys)) => |xs| == |ys| && forall k :: 0 <= k < |xs| ==> PyEq(xs[k], ys[k])
    case (JObject(m), JObject(n)) => m.Keys == n.Keys && forall k :: k in m ==> PyEq(m[k], n[k])
    case _ => false
  }

  /** Every value equals itself under `==`. */
  lemma {:induction false} PyEqReflexive(a: Json)
    ensures PyEq(a, a)
    decreases a
  {
    match a
    case JList(xs) =>
      forall k | 0 <= k < |xs|
        ensures PyEq(xs[k], xs[k])
      {
        PyEqReflexive(xs[k]);
      }
    case JObject(m) =>
      forall k | k in m
        ensures PyEq(m[k], m[k])
      {
        PyEqReflexive(m[k]);
      }
    case _ =>
  }

  /** `==` on JSON values is symmetric. */
  lemma {:induction false} PyEqSymmetric(a: Json, b: Json)
    requires PyEq(a, b)
    ensures PyEq(b, a)
    decreases a
  {
    match (a, b)
    case (JList(xs), JList(ys)) =>
      forall k | 0 <= k < |ys|
        ensures PyEq(ys[k], xs[k])
      {
        PyEqSymmetric(xs[k], ys[k]);
      }
    case (JObject(m), JObject(n)) =>
      forall k | k in n
        ensures PyEq(n[k], m[k])
      {
        PyEqSymmetric(m[k], n[k]);
      }
    case _ =>
  }

  /**
   * The value with every boolean, at any depth, replaced by the integer it
   * stands for: a canonical representative of its class under `==`.
   */
  function Norm(a: Json): (n: Json)
    ensures !n.JBool?
    ensures a.JBool? ==> n == JInt(BoolValue(a.b))
    ensures a.JList? ==> n.JList? && |n.items| == |a.items|
    ensures a.JObject? ==> n.JObject? && n.fields.Keys == a.fields.Keys
    ensures a.JNull? || a.JInt? || a.JStr? ==> n == a
    decreases a
  {
    match a
    case JBool(b) => JInt(BoolValue(b))
    case JList(xs) => JList(seq(|xs|, k requires 0 <= k < |xs| => Norm(xs[k])))
    case JObject(m) => JObject(map k | k in m :: Norm(m[k]))
    case _ => a
  }

  /** The canonical form of a list or dictionary is made of the canonical forms of its elements. */
  lemma NormElementwise(a: Json)
    ensures a.JList? ==> forall k :: 0 <= k < |a.items| ==> Norm(a).items[k] == Norm(a.items[k])
    ensures a.JObject? ==> forall key :: key in a.fields ==> Norm(a).fields[key] == Norm(a.fields[key])
  {
  }

  /** Two values are equal under `==` exactly when their canonical representatives are identical. */
  lemma {:induction false} PyEqIffSameNorm(a: Json, b: Json)
    ensures PyEq(a, b) <==> Norm(a) == Norm(b)
    decreases a
  {
    match (a, b)
    case (JList(xs), JList(ys)) =>
      forall k | 0 <= k < |xs| && k < |ys|
        ensures PyEq(xs[k], ys[k]) <==> Norm(xs[k]) == Norm(ys[k])
      {
        PyEqIffSameNorm(xs[k], ys[k]);
      }
      var nx, ny := Norm(a).items, Norm(b).items;
      assert forall k :: 0 <= k < |nx| ==> nx[k] == Norm(xs[k]);
      assert forall k :: 0 <= k < |ny| ==> ny[k] == Norm(ys[k]);
    case (JObject(m), JObject(n)) =>
      forall k | k in m && k in n
        ensures PyEq(m[k], n[k]) <==> Norm(m[k]) == Norm(n[k])
      {
        PyEqIffSameNorm(m[k], n[k]);
      }
      var nm, nn := Norm(a).fields, Norm(b).fields;
      assert forall k :: k in nm ==> nm[k] == Norm(m[k]);
      assert forall k :: k in nn ==> nn[k] == Norm(n[k]);
    case _ =>
  }

  /** Python's `==` is coarser than structural equality: `True == 1`. */
  lemma BoolEqualsOne()
    ensures PyEq(JBool(true), JInt(1)) && JBool(true) != JInt(1)
  {
  }
}
