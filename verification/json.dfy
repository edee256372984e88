/** JSON-like values as the server receives them, and the JavaScript views of them it relies on. */
module Json {
  import opened Wrappers

  datatype Value =
    | Null
    | Bool(b: bool)
    | Num(n: int)
    | Str(s: string)
    | Arr(items: seq<Value>)
    | Obj(fields: map<string, Value>)

  /** `typeof v === 'object'`: true of null, arrays and plain objects. */
  predicate IsObject(v: Value)
  {
    v.Null? || v.Arr? || v.Obj?
  }

  function Digit(d: nat): char
    requires d < 10
  {
    "0123456789"[d]
  }

  /** `String(n)` for a non-negative integer: the property key of array index `n`. */
  function Decimal(n: nat): (s: string)
    ensures |s| >= 1 && s[|s| - 1] == Digit(n % 10)
  {
    if n < 10 then [Digit(n)] else Decimal(n / 10) + [Digit(n % 10)]
  }

  lemma {:induction false} DecimalInjective(a: nat, b: nat)
    requires Decimal(a) == Decimal(b)
    ensures a == b
  {
    if a < 10 && b < 10 {
      assert Digit(a) == Digit(b);
    } else if a >= 10 && b >= 10 {
      var da, db := Decimal(a / 10), Decimal(b / 10);
      assert Decimal(a) == da + [Digit(a % 10)];
      assert Decimal(b) == db + [Digit(b % 10)];
      assert da == Decimal(a)[..|Decimal(a)| - 1];
      assert db == Decimal(b)[..|Decimal(b)| - 1];
      DecimalInjective(a / 10, b / 10);
    }
  }

  lemma LengthIsNoIndex(n: nat)
    ensures Decimal(n) != "length"
  {
  }

  /** The own properties of an array seen as an object: its indices and nothing else. */
  function ArrayProps(items: seq<Value>): (m: map<string, Value>)
    ensures forall i :: 0 <= i < |items| ==> Decimal(i) in m && m[Decimal(i)] == items[i]
    ensures forall k :: k in m ==> exists i :: 0 <= i < |items| && k == Decimal(i)
  {
    forall i: nat, j: nat | Decimal(i) == Decimal(j) ensures i == j {
      DecimalInjective(i, j);
    }
    map i | 0 <= i < |items| :: Decimal(i) := items[i]
  }

  /** The properties `key in obj` finds on an object value (prototype members are not modelled). */
  function Props(v: Value): (m: map<string, Value>)
    requires v.Arr? || v.Obj?
    ensures forall k :: k in m && (m[k].Arr? || m[k].Obj?) ==> m[k] < v
  {
    match v
    case Obj(f) => f
    case Arr(items) => ArrayProps(items)["length" := Num(|items|)]
  }

  /** `obj[key]` after `key in obj`: None stands for a missing or undefined property. */
  function Lookup(props: map<string, Value>, key: string): Option<Value>
  {
    if key in props then Some(props[key]) else None
  }

  /** JavaScript `===` on two possibly undefined parsed values: primitives compare by value,
      two distinct parsed arrays or objects are never the same reference. */
  predicate StrictEquals(a: Option<Value>, b: Option<Value>)
  {
    match (a, b)
    case (None, None) => true
    case (Some(x), Some(y)) => !x.Arr? && !x.Obj? && x == y
    case _ => false
  }
}
