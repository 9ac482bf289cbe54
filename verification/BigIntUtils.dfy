/** convertBigIntToString and its inverse by field names, convertStringToBigInt. */
module BigIntUtils {
  import opened Wrappers
  import opened Text
  import opened Values

  function Stringify(v: Value): Value
    decreases v, 1
  {
    match v
    case Big(i) => Str(IntToString(i))
    case Arr(items) => Arr(seq(|items|, i requires 0 <= i < |items| => Stringify(items[i])))
    case Obj(fields) => Obj(StringifyFields(fields))
    case _ => v
  }

  function StringifyFields(fields: seq<Field>): (r: seq<Field>)
    decreases fields, 0
    ensures |r| <= |fields|
  {
    if fields == [] then [] else
    var last := fields[|fields| - 1];
    Put(StringifyFields(fields[..|fields| - 1]), last.key, Stringify(last.value))
  }

  function Unstringify(v: Value, bigIntFields: seq<string>): Value
    decreases v, 1
  {
    match v
    case Arr(items) => Arr(seq(|items|, i requires 0 <= i < |items| => Unstringify(items[i], bigIntFields)))
    case Obj(fields) => Obj(UnstringifyFields(fields, bigIntFields))
    case _ => v
  }

  predicate Restorable(f: Field, bigIntFields: seq<string>) {
    f.key in bigIntFields && f.value.Str? && IsNumeral(f.value.s)
  }

  function UnstringifyField(f: Field, bigIntFields: seq<string>): Value
    decreases f
  {
    if Restorable(f, bigIntFields) then Big(ParseNat(f.value.s)) else Unstringify(f.value, bigIntFields)
  }

  function UnstringifyFields(fields: seq<Field>, bigIntFields: seq<string>): (r: seq<Field>)
    decreases fields, 0
    ensures |r| <= |fields|
  {
    if fields == [] then [] else
    var last := fields[|fields| - 1];
    Put(UnstringifyFields(fields[..|fields| - 1], bigIntFields), last.key, UnstringifyField(last, bigIntFields))
  }

  // ---------- shape of the results ----------

  predicate NoProto(fields: seq<Field>) {
    forall i :: 0 <= i < |fields| ==> fields[i].key != PROTO
  }

  /** fields, one for one and in place, with their values converted. */
  predicate ConvertedOf(out: seq<Field>, fields: seq<Field>) {
    |out| == |fields| && forall i :: 0 <= i < |fields| ==> out[i] == Field(fields[i].key, Stringify(fields[i].value))
  }

  lemma ConvertedOfFront(fields: seq<Field>, out: seq<Field>)
    requires fields != [] && DistinctKeys(fields) && ConvertedOf(out, fields[..|fields| - 1])
    ensures var last := fields[|fields| - 1];
            && (forall i :: 0 <= i < |out| ==> out[i].key != last.key)
            && ConvertedOf(out + [Field(last.key, Stringify(last.value))], fields)
  {
    var n := |fields| - 1;
    assert forall i :: 0 <= i < n ==> fields[..n][i] == fields[i];
  }

  lemma NoProtoFront(fields: seq<Field>)
    requires fields != []
    ensures NoProto(fields) <==> NoProto(fields[..|fields| - 1]) && fields[|fields| - 1].key != PROTO
  {
    var n := |fields| - 1;
    assert forall i :: 0 <= i < n ==> fields[..n][i] == fields[i];
  }

  /** Every property survives, in place, unless some key is `__proto__`. */
  lemma {:induction false} StringifyFieldsShape(fields: seq<Field>)
    requires DistinctKeys(fields)
    ensures |StringifyFields(fields)| == |fields| <==> NoProto(fields)
    ensures NoProto(fields) ==> ConvertedOf(StringifyFields(fields), fields)
  {
    if fields != [] {
      var n := |fields| - 1;
      NoProtoFront(fields);
      StringifyFieldsShape(fields[..n]);
      if NoProto(fields) {
        var out := StringifyFields(fields[..n]);
        ConvertedOfFront(fields, out);
        PutNew(out, fields[n].key, Stringify(fields[n].value));
      }
    }
  }

  /** fields, one for one and in place, with the values read back. */
  predicate ReadBackOf(out: seq<Field>, fields: seq<Field>, bigIntFields: seq<string>) {
    |out| == |fields| && forall i :: 0 <= i < |fields| ==>
      out[i] == Field(fields[i].key, UnstringifyField(fields[i], bigIntFields))
  }

  lemma ReadBackOfFront(fields: seq<Field>, out: seq<Field>, bigIntFields: seq<string>)
    requires fields != [] && DistinctKeys(fields) && ReadBackOf(out, fields[..|fields| - 1], bigIntFields)
    ensures var last := fields[|fields| - 1];
            && (forall i :: 0 <= i < |out| ==> out[i].key != last.key)
            && ReadBackOf(out + [Field(last.key, UnstringifyField(last, bigIntFields))], fields, bigIntFields)
  {
    var n := |fields| - 1;
    assert forall i :: 0 <= i < n ==> fields[..n][i] == fields[i];
  }

  lemma {:induction false} UnstringifyFieldsShape(fields: seq<Field>, bigIntFields: seq<string>)
    requires DistinctKeys(fields) && NoProto(fields)
    ensures ReadBackOf(UnstringifyFields(fields, bigIntFields), fields, bigIntFields)
  {
    if fields != [] {
      var n := |fields| - 1;
      UnstringifyFieldsShape(fields[..n], bigIntFields);
      var out := UnstringifyFields(fields[..n], bigIntFields);
      ReadBackOfFront(fields, out, bigIntFields);
      PutNew(out, fields[n].key, UnstringifyField(fields[n], bigIntFields));
    }
  }

  /** Converted data never holds a bigint, whatever the keys. */
  lemma {:induction false} StringifyHasNoBig(v: Value)
    ensures !HasBig(Stringify(v))
    decreases v, 1
  {
    match v
    case Arr(items) =>
      forall i | 0 <= i < |items| ensures !HasBig(Stringify(items[i])) { StringifyHasNoBig(items[i]); }
    case Obj(fields) =>
      StringifyFieldsHaveNoBig(fields);
    case _ =>
  }

  lemma {:induction false} StringifyFieldsHaveNoBig(fields: seq<Field>)
    ensures forall i :: 0 <= i < |StringifyFields(fields)| ==> !HasBig(StringifyFields(fields)[i].value)
    decreases fields, 0
  {
    if fields != [] {
      StringifyFieldsHaveNoBig(fields[..|fields| - 1]);
      StringifyHasNoBig(fields[|fields| - 1].value);
    }
  }

  // ---------- what the conversion means, position by position ----------

  /** Whatever key is asked for, its property is there converted, unless it is `__proto__`. */
  lemma {:induction false} StringifyLookup(fields: seq<Field>, key: string)
    requires DistinctKeys(fields)
    ensures Lookup(StringifyFields(fields), key) ==
            if key != PROTO && Lookup(fields, key).Some? then Some(Stringify(Lookup(fields, key).value)) else None
  {
    if fields != [] {
      var front, last := fields[..|fields| - 1], fields[|fields| - 1];
      StringifyLookup(front, key);
      LookupFront(fields, key);
      if last.key != PROTO {
        PutLookup(StringifyFields(front), last.key, Stringify(last.value), key);
      }
    }
  }

  predicate AvoidsProto(steps: seq<Step>) {
    forall i :: 0 <= i < |steps| ==> steps[i] != Key(PROTO)
  }

  /** What stands where x stood: for a bigint the one canonical text of the number, for a tree a tree of
      the same kind, and any other leaf itself. */
  predicate Replaces(d: Value, x: Value) {
    match x
    case Big(i) => d.Str? && CanonicalInt(d.s) && ParseInt(d.s) == i
    case Arr(_) => d.Arr?
    case Obj(_) => d.Obj?
    case _ => d == x
  }

  predicate ReplacedAt(v: Value, d: Value, s: seq<Step>) {
    if AvoidsProto(s) && At(v, s).Some? then At(d, s).Some? && Replaces(At(d, s).value, At(v, s).value)
    else At(d, s).None?
  }

  /** d is v with its bigints printed: the same positions, except below `__proto__`, hold what replaces
      the values there. */
  ghost predicate PrintedForm(v: Value, d: Value) {
    forall s :: ReplacedAt(v, d, s)
  }

  lemma {:induction false} StringifyAt(v: Value, s: seq<Step>)
    requires WellFormed(v)
    ensures At(Stringify(v), s) ==
            if AvoidsProto(s) && At(v, s).Some? then Some(Stringify(At(v, s).value)) else None
    decreases |s|
  {
    if s != [] {
      assert AvoidsProto(s) <==> s[0] != Key(PROTO) && AvoidsProto(s[1..]);
      match (s[0], v)
      case (Index(i), Arr(items)) =>
        if i < |items| { StringifyAt(items[i], s[1..]); }
      case (Key(k), Obj(fields)) =>
        StringifyLookup(fields, k);
        if k != PROTO && IndexOf(fields, k) < |fields| { StringifyAt(Lookup(fields, k).value, s[1..]); }
      case _ =>
    }
  }

  lemma StringifyPrints(v: Value)
    requires WellFormed(v)
    ensures PrintedForm(v, Stringify(v))
  {
    forall s ensures ReplacedAt(v, Stringify(v), s) {
      StringifyAt(v, s);
      if At(v, s).Some? && At(v, s).value.Big? {
        IntTextExact(IntToString(At(v, s).value.i), At(v, s).value.i);
      }
    }
  }

  // ---------- what reading back by field names means, position by position ----------

  lemma {:induction false} UnstringifyLookup(fields: seq<Field>, bigIntFields: seq<string>, key: string)
    requires DistinctKeys(fields)
    ensures Lookup(UnstringifyFields(fields, bigIntFields), key) ==
            if key != PROTO && Lookup(fields, key).Some?
            then Some(UnstringifyField(Field(key, Lookup(fields, key).value), bigIntFields)) else None
  {
    if fields != [] {
      var front, last := fields[..|fields| - 1], fields[|fields| - 1];
      UnstringifyLookup(front, bigIntFields, key);
      LookupFront(fields, key);
      if last.key != PROTO {
        PutLookup(UnstringifyFields(front, bigIntFields), last.key, UnstringifyField(last, bigIntFields), key);
      }
    }
  }

  /** What stands where x stood: a text of digits under a listed key became its number, a tree stays a
      tree of the same kind, and any other leaf stays itself. */
  predicate ReadsAs(d: Value, x: Value, listed: bool) {
    match x
    case Str(s) => d == if listed && IsNumeral(s) then Big(ParseNat(s)) else x
    case Arr(_) => d.Arr?
    case Obj(_) => d.Obj?
    case _ => d == x
  }

  predicate UnderListed(s: seq<Step>, bigIntFields: seq<string>) {
    s != [] && s[|s| - 1].Key? && s[|s| - 1].k in bigIntFields
  }

  predicate ReadAt(v: Value, d: Value, s: seq<Step>, bigIntFields: seq<string>) {
    if AvoidsProto(s) && At(v, s).Some?
    then At(d, s).Some? && ReadsAs(At(d, s).value, At(v, s).value, UnderListed(s, bigIntFields))
    else At(d, s).None?
  }

  ghost predicate ReadForm(v: Value, d: Value, bigIntFields: seq<string>) {
    forall s :: ReadAt(v, d, s, bigIntFields)
  }

  lemma AvoidsTail(s: seq<Step>)
    requires s != []
    ensures AvoidsProto(s) <==> s[0] != Key(PROTO) && AvoidsProto(s[1..])
  {
  }

  /** One level down, by a key: a text under it may have become a number. */
  lemma ReadBelowKey(v: Value, d: Value, s: seq<Step>, bigIntFields: seq<string>, x: Value)
    requires s != [] && s[0].Key? && s[0].k != PROTO && At(v, s[..1]) == Some(x)
    requires At(d, s[..1]) == Some(UnstringifyField(Field(s[0].k, x), bigIntFields))
    requires ReadAt(x, Unstringify(x, bigIntFields), s[1..], bigIntFields)
    requires At(v, s) == At(x, s[1..])
    requires At(d, s) == At(UnstringifyField(Field(s[0].k, x), bigIntFields), s[1..])
    ensures ReadAt(v, d, s, bigIntFields)
  {
    AvoidsTail(s);
  }

  lemma {:induction false} UnstringifyAt(v: Value, bigIntFields: seq<string>, s: seq<Step>)
    requires WellFormed(v)
    ensures ReadAt(v, Unstringify(v, bigIntFields), s, bigIntFields)
    decreases |s|
  {
    if s != [] {
      AvoidsTail(s);
      match (s[0], v)
      case (Index(i), Arr(items)) =>
        if i < |items| { UnstringifyAt(items[i], bigIntFields, s[1..]); }
      case (Key(k), Obj(fields)) =>
        UnstringifyLookup(fields, bigIntFields, k);
        if k != PROTO && IndexOf(fields, k) < |fields| {
          var x := Lookup(fields, k).value;
          UnstringifyAt(x, bigIntFields, s[1..]);
          ReadBelowKey(v, Unstringify(v, bigIntFields), s, bigIntFields, x);
        }
      case _ =>
    }
  }

  lemma StringReadBack(v: Value, bigIntFields: seq<string>)
    requires WellFormed(v)
    ensures ReadForm(v, Unstringify(v, bigIntFields), bigIntFields)
  {
    forall s ensures ReadAt(v, Unstringify(v, bigIntFields), s, bigIntFields) {
      UnstringifyAt(v, bigIntFields, s);
    }
  }

  // ---------- the two converters as the source runs them ----------

  method ConvertBigIntToString(obj: Value) returns (r: Value)
    ensures r == Stringify(obj)
    ensures WellFormed(obj) ==> PrintedForm(obj, r)
    decreases obj
  {
    match obj {
      case Big(i) => r := Str(IntToString(i));
      case Arr(items) =>
        var mapped: seq<Value> := [];
        for i := 0 to |items|
          invariant |mapped| == i
          invariant forall j :: 0 <= j < i ==> mapped[j] == Stringify(items[j])
        {
          var item := ConvertBigIntToString(items[i]);
          mapped := mapped + [item];
        }
        r := Arr(mapped);
      case Obj(fields) =>
        var converted: seq<Field> := [];
        for i := 0 to |fields|
          invariant converted == StringifyFields(fields[..i])
        {
          var value := ConvertBigIntToString(fields[i].value);
          converted := Put(converted, fields[i].key, value);
          assert fields[..i + 1][..i] == fields[..i];
        }
        assert fields[..|fields|] == fields;
        r := Obj(converted);
      case _ => r := obj;
    }
    if WellFormed(obj) {
      StringifyPrints(obj);
    }
  }

  method ConvertStringToBigInt(obj: Value, bigIntFields: seq<string>) returns (r: Value)
    ensures r == Unstringify(obj, bigIntFields)
    ensures WellFormed(obj) ==> ReadForm(obj, r, bigIntFields)
    decreases obj
  {
    match obj {
      case Arr(items) =>
        var mapped: seq<Value> := [];
        for i := 0 to |items|
          invariant |mapped| == i
          invariant forall j :: 0 <= j < i ==> mapped[j] == Unstringify(items[j], bigIntFields)
        {
          var item := ConvertStringToBigInt(items[i], bigIntFields);
          mapped := mapped + [item];
        }
        r := Arr(mapped);
      case Obj(fields) =>
        var converted: seq<Field> := [];
        for i := 0 to |fields|
          invariant converted == UnstringifyFields(fields[..i], bigIntFields)
        {
          var key, value := fields[i].key, fields[i].value;
          if key in bigIntFields && value.Str? && IsNumeral(value.s) {
            converted := Put(converted, key, Big(ParseNat(value.s)));
          } else {
            var inner := ConvertStringToBigInt(value, bigIntFields);
            converted := Put(converted, key, inner);
          }
          assert fields[..i + 1][..i] == fields[..i];
        }
        assert fields[..|fields|] == fields;
        r := Obj(converted);
      case _ => r := obj;
    }
    if WellFormed(obj) {
      StringReadBack(obj, bigIntFields);
    }
  }

  // ---------- the round trip by field names ----------

  /** Where reading back by field names is faithful: each bigint is a non-negative property under a
      listed key, no text under a listed key is all digits, and no key is `__proto__`. */
  predicate FaithfulByName(v: Value, bigIntFields: seq<string>) {
    match v
    case Big(_) => false
    case Arr(items) => forall i :: 0 <= i < |items| ==> FaithfulByName(items[i], bigIntFields)
    case Obj(fields) =>
      NoProto(fields) && forall i :: 0 <= i < |fields| ==> FaithfulField(fields[i], bigIntFields)
    case _ => true
  }

  predicate FaithfulField(f: Field, bigIntFields: seq<string>) {
    match f.value
    case Big(n) => f.key in bigIntFields && n >= 0
    case Str(s) => !(f.key in bigIntFields && IsNumeral(s))
    case _ => FaithfulByName(f.value, bigIntFields)
  }

  /** The round trip by field names returns the original exactly on the faithful values. */
  lemma {:induction false} FieldNameRoundTrip(v: Value, bigIntFields: seq<string>)
    requires WellFormed(v)
    ensures Unstringify(Stringify(v), bigIntFields) == v <==> FaithfulByName(v, bigIntFields)
    decreases v, 1
  {
    match v
    case Arr(items) =>
      var back := Unstringify(Stringify(v), bigIntFields).items;
      forall i | 0 <= i < |items|
        ensures back[i] == items[i] <==> FaithfulByName(items[i], bigIntFields)
      {
        FieldNameRoundTrip(items[i], bigIntFields);
      }
      assert back == items <==> forall i :: 0 <= i < |items| ==> back[i] == items[i];
    case Obj(fields) =>
      StringifyFieldsShape(fields);
      if NoProto(fields) {
        ObjectRoundTrip(fields, bigIntFields);
      }
    case _ =>
  }

  lemma {:induction false} ObjectRoundTrip(fields: seq<Field>, bigIntFields: seq<string>)
    requires WellFormed(Obj(fields)) && NoProto(fields)
    ensures UnstringifyFields(StringifyFields(fields), bigIntFields) == fields <==>
            forall i :: 0 <= i < |fields| ==> FaithfulField(fields[i], bigIntFields)
    decreases fields, 0
  {
    StringifyFieldsShape(fields);
    var out := StringifyFields(fields);
    UnstringifyFieldsShape(out, bigIntFields);
    var back := UnstringifyFields(out, bigIntFields);
    forall i | 0 <= i < |fields|
      ensures back[i] == fields[i] <==> FaithfulField(fields[i], bigIntFields)
    {
      FieldRoundTrip(fields[i], bigIntFields);
    }
    assert back == fields <==> forall i :: 0 <= i < |fields| ==> back[i] == fields[i];
  }

  lemma {:induction false} FieldRoundTrip(f: Field, bigIntFields: seq<string>)
    requires WellFormed(f.value)
    ensures UnstringifyField(Field(f.key, Stringify(f.value)), bigIntFields) == f.value <==>
            FaithfulField(f, bigIntFields)
    decreases f
  {
    match f.value
    case Big(n) => ParseIntToString(n);
    case Str(s) =>
    case _ => FieldNameRoundTrip(f.value, bigIntFields);
  }
}
