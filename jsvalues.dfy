/**
  The part of JavaScript's value semantics that the auth store relies on:
  plain values, truthiness, property reads (which throw on null and
  undefined) and the object spread `{...v}`, which copies the own
  enumerable properties of `v` into a fresh object.
 */
module JsValues {

  /** A JavaScript value. Objects are their own enumerable properties. */
  datatype Value =
    | Undefined
    | Null
    | Bool(b: bool)
    | Num(n: int)
    | Str(s: string)
    | Arr(elems: seq<Value>)
    | Obj(props: map<string, Value>)

  /** The only exception the modelled code can raise. */
  datatype JsError = TypeError

  datatype Result<T> = Ok(value: T) | Err(error: JsError)

  predicate IsNullish(v: Value) {
    v.Undefined? || v.Null?
  }

  /** ToBoolean: `undefined`, `null`, `false`, `0` and `""` are falsy. */
  predicate Truthy(v: Value) {
    match v
    case Undefined => false
    case Null => false
    case Bool(b) => b
    case Num(n) => n != 0
    case Str(s) => s != ""
    case Arr(_) => true
    case Obj(_) => true
  }

  function Digit(d: nat): (c: char)
    requires d < 10
    ensures '0' <= c <= '9'
  {
    ('0' as int + d) as char
  }

  /** The property key of array index `i`: its decimal form, no leading zeros. */
  function IndexKey(i: nat): (k: string)
    ensures |k| >= 1
    ensures |k| == 1 <==> i < 10
  {
    if i < 10 then [Digit(i)] else IndexKey(i / 10) + [Digit(i % 10)]
  }

  /** Distinct indices have distinct keys. */
  lemma {:induction false} IndexKeyInjective(i: nat, j: nat)
    requires IndexKey(i) == IndexKey(j)
    ensures i == j
  {
    if i < 10 || j < 10 {
      assert |IndexKey(i)| == |IndexKey(j)|;
      assert IndexKey(i)[0] == IndexKey(j)[0];
    } else {
      var ki, kj := IndexKey(i), IndexKey(j);
      assert ki[|ki| - 1] == kj[|kj| - 1];
      assert Digit(i % 10) == Digit(j % 10);
      assert IndexKey(i / 10) == ki[..|ki| - 1] == kj[..|kj| - 1] == IndexKey(j / 10);
      IndexKeyInjective(i / 10, j / 10);
    }
  }

  lemma IndexKeysInjective()
    ensures forall i: nat, j: nat :: IndexKey(i) == IndexKey(j) ==> i == j
  {
    forall i: nat, j: nat | IndexKey(i) == IndexKey(j)
      ensures i == j
    {
      IndexKeyInjective(i, j);
    }
  }

  /** The keys of the first `n` indices, `{"0", ..., IndexKey(n - 1)}`. */
  function IndexKeys(n: nat): set<string> {
    if n == 0 then {} else IndexKeys(n - 1) + {IndexKey(n - 1)}
  }

  lemma {:induction false} IndexKeysHas(n: nat, i: nat)
    requires i < n
    ensures IndexKey(i) in IndexKeys(n)
  {
    if i < n - 1 {
      IndexKeysHas(n - 1, i);
    }
  }

  lemma {:induction false} IndexKeysOnly(n: nat, k: string) returns (i: nat)
    requires k in IndexKeys(n)
    ensures i < n && k == IndexKey(i)
  {
    if k == IndexKey(n - 1) {
      i := n - 1;
    } else {
      i := IndexKeysOnly(n - 1, k);
    }
  }

  /** No two of the first `n` index keys coincide. */
  lemma {:induction false} IndexKeysCount(n: nat)
    ensures |IndexKeys(n)| == n
  {
    if n > 0 {
      IndexKeysCount(n - 1);
      if IndexKey(n - 1) in IndexKeys(n - 1) {
        var i := IndexKeysOnly(n - 1, IndexKey(n - 1));
        IndexKeyInjective(i, n - 1);
        assert false;
      }
    }
  }

  /** `{0: xs[0], 1: xs[1], ...}`, well defined because index keys are distinct. */
  function IndexMap(xs: seq<Value>): map<string, Value> {
    IndexKeysInjective();
    map i | 0 <= i < |xs| :: IndexKey(i) := xs[i]
  }

  /** The index-keyed map of `xs` holds every element under its index key. */
  lemma IndexMapAt(xs: seq<Value>)
    ensures forall i :: 0 <= i < |xs| ==> IndexKey(i) in IndexMap(xs) && IndexMap(xs)[IndexKey(i)] == xs[i]
  {
    IndexKeysInjective();
    var m := IndexMap(xs);
    forall i | 0 <= i < |xs|
      ensures IndexKey(i) in m && m[IndexKey(i)] == xs[i]
    {
    }
  }

  /** ... and has no other keys: exactly the first `|xs|` index keys, `|xs|` of them. */
  lemma IndexMapKeys(xs: seq<Value>)
    ensures IndexMap(xs).Keys == IndexKeys(|xs|)
    ensures |IndexMap(xs)| == |xs|
  {
    var m := IndexMap(xs);
    forall k | k in m
      ensures k in IndexKeys(|xs|)
    {
      var i :| 0 <= i < |xs| && k == IndexKey(i);
      IndexKeysHas(|xs|, i);
    }
    forall k | k in IndexKeys(|xs|)
      ensures k in m
    {
      var i := IndexKeysOnly(|xs|, k);
    }
    assert m.Keys == IndexKeys(|xs|);
    IndexKeysCount(|xs|);
  }

  /** The one-character strings of `s`, as a string spread produces them. */
  function Chars(s: string): (cs: seq<Value>)
    ensures |cs| == |s|
    ensures forall i :: 0 <= i < |s| ==> cs[i] == Str([s[i]])
  {
    seq(|s|, i requires 0 <= i < |s| => Str([s[i]]))
  }

  /**
    The properties that `{...v}` copies: the object's own properties, the
    indexed elements of an array or the characters of a string, and nothing
    for `undefined`, `null`, booleans and numbers.
   */
  function Spread(v: Value): (m: map<string, Value>)
    ensures IsNullish(v) || v.Bool? || v.Num? ==> m == map[]
    ensures v.Obj? ==> m == v.props
  {
    match v
    case Obj(props) => props
    case Arr(xs) => IndexMap(xs)
    case Str(s) => IndexMap(Chars(s))
    case _ => map[]
  }

  /**
    Spreading an array gives exactly the decimal keys of its positions, each
    with the element there.
   */
  lemma SpreadArray(xs: seq<Value>)
    ensures forall i :: 0 <= i < |xs| ==> IndexKey(i) in Spread(Arr(xs)) && Spread(Arr(xs))[IndexKey(i)] == xs[i]
    ensures Spread(Arr(xs)).Keys == IndexKeys(|xs|) && |Spread(Arr(xs))| == |xs|
  {
    assert Spread(Arr(xs)) == IndexMap(xs);
    IndexMapAt(xs);
    IndexMapKeys(xs);
  }

  /**
    Spreading a string gives exactly the decimal keys of its positions, each
    with the one-character string there.
   */
  lemma SpreadString(s: string)
    ensures forall i :: 0 <= i < |s| ==> IndexKey(i) in Spread(Str(s)) && Spread(Str(s))[IndexKey(i)] == Str([s[i]])
    ensures Spread(Str(s)).Keys == IndexKeys(|s|) && |Spread(Str(s))| == |s|
  {
    var cs := Chars(s);
    assert Spread(Str(s)) == IndexMap(cs);
    IndexMapAt(cs);
    IndexMapKeys(cs);
  }

  /** `m[key]` for an own property, `undefined` when it is absent. */
  function Get(m: map<string, Value>, key: string): (r: Value)
    ensures key !in m ==> r == Undefined
    ensures key in m ==> r == m[key]
  {
    if key in m then m[key] else Undefined
  }

  /**
    The property read `v.key` (own properties and `length`): a TypeError
    exactly when `v` is `null` or `undefined`.
   */
  function Property(v: Value, key: string): (r: Result<Value>)
    ensures r.Err? <==> IsNullish(v)
    ensures v.Obj? ==> r == Ok(Get(v.props, key))
    ensures v.Bool? || v.Num? ==> r == Ok(Undefined)
  {
    match v
    case Undefined => Err(TypeError)
    case Null => Err(TypeError)
    case Arr(xs) => Ok(if key == "length" then Num(|xs|) else Get(Spread(v), key))
    case Str(s) => Ok(if key == "length" then Num(|s|) else Get(Spread(v), key))
    case _ => Ok(Get(Spread(v), key))
  }

  /**
    `{...a, ...b}`: the keys of both, each taking b's value when b has it and
    a's otherwise.
   */
  function SpreadMerge(a: Value, b: Value): (m: map<string, Value>)
    ensures m.Keys == Spread(a).Keys + Spread(b).Keys
    ensures forall k :: k in Spread(b) ==> m[k] == Spread(b)[k]
    ensures forall k :: k in Spread(a) && k !in Spread(b) ==> m[k] == Spread(a)[k]
    ensures Spread(a) == map[] ==> m == Spread(b)
  {
    Spread(a) + Spread(b)
  }

  /** Overlaying the same map twice is overlaying it once. */
  lemma OverlayTwice<K, V>(m: map<K, V>, f: map<K, V>)
    ensures (m + f) + f == m + f
  {
    var once := m + f;
    forall k | k in once + f
      ensures (once + f)[k] == once[k]
    {
    }
  }

  /** Spreading the same value over a merge a second time changes nothing. */
  lemma SpreadMergeTwice(a: Value, b: Value)
    ensures SpreadMerge(Obj(SpreadMerge(a, b)), b) == SpreadMerge(a, b)
  {
    OverlayTwice(Spread(a), Spread(b));
  }
}
