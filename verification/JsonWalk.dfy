/** bigIntReplacer and bigIntReviver inside the walks of JSON.stringify (SerializeJSONProperty,
    section 25.5.2 of ECMA-262) and JSON.parse (InternalizeJSONProperty, section 25.5.1), on values;
    the text in between is left out. */
module JsonWalk {
  import opened Wrappers
  import opened Text
  import opened Values

  function BigIntReplacer(value: Value): Value {
    if value.Big? then Str(IntToString(value.i) + "n") else value
  }

  /** A text that ends in `n` after nothing but digits. */
  predicate MarkedNumeral(s: string) {
    s != "" && s[|s| - 1] == 'n' && IsNumeral(s[..|s| - 1])
  }

  function BigIntReviver(value: Value): Value {
    if value.Str? && MarkedNumeral(value.s) then Big(ParseNat(value.s[..|value.s| - 1])) else value
  }

  /** The JSON value written for v, children after their parent was replaced; None is `undefined`.
      Arrays write `null` for it, objects skip the property, and non-finite numbers become `null`. */
  function Serialize(v: Value): Option<Value>
    decreases v, 1
  {
    match BigIntReplacer(v)
    case Undefined => None
    case Big(_) => None
    case NonFinite => Some(Null)
    case Arr(items) =>
      Some(Arr(seq(|items|, i requires 0 <= i < |items| =>
        match Serialize(items[i]) case None => Null case Some(j) => j)))
    case Obj(fields) => Some(Obj(SerializeFields(fields)))
    case leaf => Some(leaf)
  }

  function SerializeFields(fields: seq<Field>): seq<Field>
    decreases fields, 0
  {
    if fields == [] then [] else
    var last := fields[|fields| - 1];
    SerializeFields(fields[..|fields| - 1]) +
    match Serialize(last.value) case None => [] case Some(j) => [Field(last.key, j)]
  }

  /** Children first, then the value itself goes through the reviver. */
  function Internalize(v: Value): Value {
    match v
    case Arr(items) => BigIntReviver(Arr(seq(|items|, i requires 0 <= i < |items| => Internalize(items[i]))))
    case Obj(fields) =>
      BigIntReviver(Obj(seq(|fields|, i requires 0 <= i < |fields| =>
        Field(fields[i].key, Internalize(fields[i].value)))))
    case _ => BigIntReviver(v)
  }

  /** safeParse(safeStringify(v)); None when there was no text to parse. */
  function ThereAndBack(v: Value): Option<Value> {
    match Serialize(v) case None => None case Some(j) => Some(Internalize(j))
  }

  predicate Faithful(v: Value) {
    match v
    case Undefined => false
    case NonFinite => false
    case Big(i) => i >= 0
    case Str(s) => !MarkedNumeral(s)
    case Arr(items) => forall i :: 0 <= i < |items| ==> Faithful(items[i])
    case Obj(fields) => forall i :: 0 <= i < |fields| ==> Faithful(fields[i].value)
    case _ => true
  }

  lemma {:induction false} SerializeFieldsShape(fields: seq<Field>)
    ensures |SerializeFields(fields)| <= |fields|
    ensures |SerializeFields(fields)| == |fields| <==>
            forall i :: 0 <= i < |fields| ==> Serialize(fields[i].value).Some?
    ensures |SerializeFields(fields)| == |fields| ==> forall i :: 0 <= i < |fields| ==>
              SerializeFields(fields)[i] == Field(fields[i].key, Serialize(fields[i].value).value)
  {
    if fields != [] {
      var front := fields[..|fields| - 1];
      SerializeFieldsShape(front);
      assert forall i :: 0 <= i < |front| ==> front[i] == fields[i];
    }
  }

  /** A bigint is written as its one canonical text with an `n` behind it. */
  lemma ReplacerText(i: int, s: string)
    ensures BigIntReplacer(Big(i)) == Str(s) <==>
            s != "" && s[|s| - 1] == 'n' && CanonicalInt(s[..|s| - 1]) && ParseInt(s[..|s| - 1]) == i
    ensures Serialize(Big(i)) == Some(BigIntReplacer(Big(i)))
  {
    if s != "" {
      IntTextExact(s[..|s| - 1], i);
      assert s[|s| - 1] == 'n' ==> s == s[..|s| - 1] + "n";
    }
    var t := IntToString(i) + "n";
    assert t[..|t| - 1] == IntToString(i);
  }

  lemma MarkedBig(i: int)
    ensures MarkedNumeral(IntToString(i) + "n") <==> i >= 0
    ensures i >= 0 ==> BigIntReviver(Str(IntToString(i) + "n")) == Big(i)
  {
    ParseIntToString(i);
    var s := IntToString(i) + "n";
    assert s[..|s| - 1] == IntToString(i);
  }

  /** The pair is the identity exactly when every bigint is non-negative, no text is digits followed
      by `n`, and nothing is undefined or a non-finite number. */
  lemma {:induction false} ReplacerReviverRoundTrip(v: Value)
    ensures ThereAndBack(v) == Some(v) <==> Faithful(v)
    decreases v
  {
    match v
    case Big(i) => MarkedBig(i);
    case Arr(items) =>
      var back := ThereAndBack(v).value.items;
      forall i | 0 <= i < |items|
        ensures back[i] == items[i] <==> Faithful(items[i])
      {
        ReplacerReviverRoundTrip(items[i]);
        var written := match Serialize(items[i]) case None => Null case Some(j) => j;
        assert back[i] == Internalize(written);
        assert Serialize(items[i]).None? <==> items[i].Undefined?;
      }
      assert back == items <==> forall i :: 0 <= i < |items| ==> back[i] == items[i];
    case Obj(fields) =>
      SerializeFieldsShape(fields);
      var back := ThereAndBack(v).value.fields;
      forall i | 0 <= i < |fields|
        ensures Faithful(fields[i].value) ==> Serialize(fields[i].value).Some?
        ensures |back| == |fields| ==> (back[i] == fields[i] <==> Faithful(fields[i].value))
      {
        ReplacerReviverRoundTrip(fields[i].value);
      }
      assert |back| == |fields| ==> (back == fields <==> forall i :: 0 <= i < |fields| ==> back[i] == fields[i]);
    case _ =>
  }
}
