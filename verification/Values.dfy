/** JavaScript values as the API sees them: trees of plain objects and arrays over primitive leaves. */
module Values {
  import opened Wrappers

  datatype Value =
    | Undefined
    | Null
    | Bool(b: bool)
    | Num(n: real)
    | NonFinite
    | Str(s: string)
    | Big(i: int)
    | Arr(items: seq<Value>)
    | Obj(fields: seq<Field>)

  /** One own property; an object lists its properties in enumeration order. */
  datatype Field = Field(key: string, value: Value)

  predicate DistinctKeys(fields: seq<Field>) {
    forall i, j :: 0 <= i < j < |fields| ==> fields[i].key != fields[j].key
  }

  /** What every JavaScript value satisfies: no object has the same key twice. */
  predicate WellFormed(v: Value) {
    match v
    case Arr(items) => forall i :: 0 <= i < |items| ==> WellFormed(items[i])
    case Obj(fields) => DistinctKeys(fields) && forall i :: 0 <= i < |fields| ==> WellFormed(fields[i].value)
    case _ => true
  }

  /** The key whose assignment sets an object's prototype and creates no property. */
  const PROTO := "__proto__"

  function IndexOf(fields: seq<Field>, key: string): (i: nat)
    ensures i <= |fields|
    ensures i < |fields| ==> fields[i].key == key
    ensures forall j :: 0 <= j < i ==> fields[j].key != key
  {
    if fields == [] || fields[0].key == key then 0 else 1 + IndexOf(fields[1..], key)
  }

  /** The own properties of a plain object after `object[key] = value`. */
  function Put(fields: seq<Field>, key: string, value: Value): (r: seq<Field>)
    ensures key != PROTO && (forall i :: 0 <= i < |fields| ==> fields[i].key != key)
            ==> r == fields + [Field(key, value)]
    ensures |r| <= |fields| + 1
  {
    if key == PROTO then fields
    else
      var i := IndexOf(fields, key);
      if i < |fields| then fields[i := Field(key, value)] else fields + [Field(key, value)]
  }

  lemma PutNew(fields: seq<Field>, key: string, value: Value)
    requires key != PROTO && forall i :: 0 <= i < |fields| ==> fields[i].key != key
    ensures Put(fields, key, value) == fields + [Field(key, value)]
  {
  }

  function Lookup(fields: seq<Field>, key: string): Option<Value> {
    var i := IndexOf(fields, key);
    if i < |fields| then Some(fields[i].value) else None
  }

  lemma FirstAt(fields: seq<Field>, key: string, i: nat)
    requires i < |fields| && fields[i].key == key && forall j :: 0 <= j < i ==> fields[j].key != key
    ensures IndexOf(fields, key) == i
  {
  }

  lemma {:induction false} PutLookup(fields: seq<Field>, key: string, value: Value, k: string)
    requires key != PROTO
    ensures Lookup(Put(fields, key, value), k) == if k == key then Some(value) else Lookup(fields, k)
  {
    var i := IndexOf(fields, key);
    var r := Put(fields, key, value);
    if k == key {
      FirstAt(r, k, i);
    } else {
      var j := IndexOf(fields, k);
      if j < |fields| {
        FirstAt(r, k, j);
      }
    }
  }

  lemma LookupFront(source: seq<Field>, key: string)
    requires source != [] && DistinctKeys(source)
    ensures var n := |source| - 1;
            Lookup(source, key) == if key == source[n].key then Some(source[n].value) else Lookup(source[..n], key)
  {
    var n := |source| - 1;
    var i := IndexOf(source[..n], key);
    if key == source[n].key {
      FirstAt(source, key, n);
    } else if i < n {
      FirstAt(source, key, i);
    } else {
      assert forall j :: 0 <= j < n ==> source[..n][j] == source[j];
    }
  }

  lemma OwnIndex(fields: seq<Field>, i: nat)
    requires DistinctKeys(fields) && i < |fields|
    ensures IndexOf(fields, fields[i].key) == i
  {
  }

  // ---------- positions in a tree ----------

  datatype Step = Key(k: string) | Index(i: nat)

  function At(v: Value, steps: seq<Step>): Option<Value> {
    if steps == [] then Some(v) else
    match (steps[0], v)
    case (Index(i), Arr(items)) => if i < |items| then At(items[i], steps[1..]) else None
    case (Key(k), Obj(fields)) =>
      var i := IndexOf(fields, k);
      if i < |fields| then At(fields[i].value, steps[1..]) else None
    case _ => None
  }

  /** Does the tree hold a bigint anywhere (hasBigIntValues, and the interceptor's hasBigInt)? */
  predicate HasBig(v: Value) {
    match v
    case Big(_) => true
    case Arr(items) => exists i :: 0 <= i < |items| && HasBig(items[i])
    case Obj(fields) => exists i :: 0 <= i < |fields| && HasBig(fields[i].value)
    case _ => false
  }
}
