/** Turning an Ogmios UTxO list into an object keyed by output reference (ogmios-converter.ts), and
    reading such keys back for a query (ogmios-client.service.ts). */
module Utxo {
  import opened Wrappers
  import opened Text
  import opened Values
  import opened BigIntUtils
  import Seqs

  /** What the Cardano library makes of an inline datum, and its hash. */
  datatype Reading = Reading(json: Value, hash: string)

  /** reading is None where the library, or parsing what it returns, throws. */
  datatype Datum = NoDatum | Inline(raw: string, reading: Option<Reading>)

  /** json is the text JSON.stringify makes of a native script. */
  datatype Script = Script(language: string, json: string, cbor: Option<string>)

  datatype Attachments = Attachments(datumHash: Option<string>, datum: Datum, script: Option<Script>)

  /** One element of the list. The converter deletes `value.ada` from it; assets maps policies to objects
      that map asset names to quantities. */
  class Output {
    const id: string
    const index: nat
    const address: string
    const attached: Attachments
    var ada: Option<int>
    const assets: seq<Field>

    constructor (row: Row)
      ensures Snapshot() == row
    {
      id, index, address, attached := row.id, row.index, row.address, row.attached;
      ada, assets := row.ada, row.assets;
    }

    function Snapshot(): Row
      reads this
    {
      Row(id, index, address, attached, ada, assets)
    }
  }

  datatype Row = Row(id: string, index: nat, address: string, attached: Attachments, ada: Option<int>,
                     assets: seq<Field>)

  function Rows(utxos: seq<Output>): (rows: seq<Row>)
    reads utxos
    ensures |rows| == |utxos|
  {
    seq(|utxos|, i requires 0 <= i < |utxos| reads utxos => utxos[i].Snapshot())
  }

  // ---------- what the object holds ----------

  function Key(id: string, index: nat): string {
    id + "#" + NatToString(index)
  }

  /** `{ ...target, ...source }` for a source without a `__proto__` property. */
  function Spread(target: seq<Field>, source: seq<Field>): seq<Field> {
    if source == [] then target else
    Put(Spread(target, source[..|source| - 1]), source[|source| - 1].key, source[|source| - 1].value)
  }

  function ValueOf(row: Row): seq<Field>
    requires row.ada.Some?
  {
    Spread([Field("lovelace", Str(IntToString(row.ada.value)))], StringifyFields(row.assets))
  }

  /** `text || null`: an empty text counts as none. */
  function OrNull(text: Option<string>): Value {
    if text.Some? && text.value != "" then Str(text.value) else Null
  }

  predicate HasDatum(d: Datum) {
    d.Inline? && d.raw != ""
  }

  predicate Readable(d: Datum) {
    HasDatum(d) ==> d.reading.Some?
  }

  function CborHex(script: Script): Value {
    if script.cbor.Some? then Str(script.cbor.value) else Undefined
  }

  function ScriptObject(language: string, kind: string, description: string, cborHex: Value): Value {
    Obj([Field("scriptLanguage", Str(language)),
         Field("script", Obj([Field("type", Str(kind)), Field("description", Str(description)),
                              Field("cborHex", cborHex)]))])
  }

  /** convertReferenceScript. */
  function ConvertReferenceScript(script: Option<Script>): Value {
    if script.None? then Null else
    var s := script.value;
    if s.language == "native" then ScriptObject(s.language, "SimpleScript", s.json, CborHex(s))
    else if s.language == "plutus:v1" then ScriptObject(s.language, "PlutusScriptV1", "", CborHex(s))
    else if s.language == "plutus:v2" then ScriptObject(s.language, "PlutusScriptV2", "", CborHex(s))
    else if s.language == "plutus:v3" then ScriptObject(s.language, "PlutusScriptV3", "", CborHex(s))
    else Null
  }

  function AttachedFields(a: Attachments): seq<Field>
    requires Readable(a.datum)
  {
    var has := HasDatum(a.datum);
    [Field("datum", Null),
     Field("datumhash", OrNull(a.datumHash)),
     Field("inlineDatumhash", if has then Str(a.datum.reading.value.hash) else Null),
     Field("inlineDatumRaw", if has then Str(a.datum.raw) else Null),
     Field("inlineDatum", if has then a.datum.reading.value.json else Null),
     Field("referenceScript", ConvertReferenceScript(a.script))]
  }

  /** Neither the amount nor the datum makes the converter throw. */
  predicate Convertible(row: Row) {
    row.ada.Some? && Readable(row.attached.datum)
  }

  function EntryOf(row: Row): Value
    requires Convertible(row)
  {
    Obj([Field("address", Str(row.address)), Field("value", Obj(ValueOf(row)))] + AttachedFields(row.attached))
  }

  predicate AllConvertible(rows: seq<Row>) {
    forall i :: 0 <= i < |rows| ==> Convertible(rows[i])
  }

  function ObjectOf(rows: seq<Row>): seq<Field>
    requires AllConvertible(rows)
  {
    if rows == [] then [] else
    var last := rows[|rows| - 1];
    Put(ObjectOf(rows[..|rows| - 1]), Key(last.id, last.index), EntryOf(last))
  }

  // ---------- the converter ----------

  /** It came without ada, or an earlier element is the same object. */
  predicate LacksAda(utxos: seq<Output>, rows: seq<Row>, k: nat)
    requires k < |utxos| == |rows|
  {
    rows[k].ada.None? || utxos[k] in utxos[..k]
  }

  /** Converting element k throws: there is no ada on it, or no longer, or its datum cannot be read. */
  predicate Throws(utxos: seq<Output>, rows: seq<Row>, k: nat)
    requires k < |utxos| == |rows|
  {
    LacksAda(utxos, rows, k) || !Readable(rows[k].attached.datum)
  }

  predicate NoneThrows(utxos: seq<Output>, rows: seq<Row>, done: nat)
    requires done <= |utxos| == |rows|
  {
    forall k: nat :: k < done ==> !Throws(utxos, rows, k)
  }

  function Adas(utxos: seq<Output>): (adas: seq<Option<int>>)
    reads utxos
    ensures |adas| == |utxos|
  {
    seq(|utxos|, i requires 0 <= i < |utxos| reads utxos => utxos[i].ada)
  }

  /** The first elements have lost their ada, wherever else the list refers to them; the rest have not. */
  predicate AdaDeleted(utxos: seq<Output>, rows: seq<Row>, done: nat, adas: seq<Option<int>>)
    requires done <= |utxos| == |rows| == |adas|
  {
    forall k :: 0 <= k < |utxos| ==> adas[k] == if utxos[k] in utxos[..done] then None else rows[k].ada
  }

  /** The ada goes before the datum is read, so it is gone even when that throws. */
  method ConvertUtxo(utxo: Output) returns (entry: Option<Field>)
    requires utxo.ada.Some?
    modifies utxo
    ensures utxo.ada == None
    ensures entry.Some? <==> Readable(utxo.attached.datum)
    ensures entry.Some? ==> entry.value == Field(Key(utxo.id, utxo.index), EntryOf(old(utxo.Snapshot())))
  {
    var txHash := utxo.id + "#" + NatToString(utxo.index);
    var lovelace := IntToString(utxo.ada.value);
    utxo.ada := None;
    if HasDatum(utxo.attached.datum) && utxo.attached.datum.reading.None? {
      return None;
    }
    var assets := ConvertBigIntToString(Obj(utxo.assets));
    var value := Spread([Field("lovelace", Str(lovelace))], assets.fields);
    var fields := [Field("address", Str(utxo.address)), Field("value", Obj(value))] + AttachedFields(utxo.attached);
    entry := Some(Field(txHash, Obj(fields)));
  }

  /** How far the loop has come: the first elements are converted, none of them threw. */
  predicate Converted(utxos: seq<Output>, rows: seq<Row>, done: nat, adas: seq<Option<int>>, made: seq<Field>)
    requires done <= |utxos| == |rows| == |adas|
  {
    && NoneThrows(utxos, rows, done) && AdaDeleted(utxos, rows, done, adas)
    && AllConvertible(rows[..done]) && made == ObjectOf(rows[..done])
  }

  lemma NotYetDeleted(utxos: seq<Output>, rows: seq<Row>, done: nat, adas: seq<Option<int>>)
    requires done < |utxos| == |rows| == |adas| && AdaDeleted(utxos, rows, done, adas)
    ensures LacksAda(utxos, rows, done) <==> adas[done].None?
    ensures adas[done].Some? ==> adas[done] == rows[done].ada
  {
  }

  lemma OneMoreDeleted(utxos: seq<Output>, rows: seq<Row>, done: nat, adas: seq<Option<int>>,
                       adas': seq<Option<int>>)
    requires done < |utxos| == |rows| == |adas| == |adas'| && AdaDeleted(utxos, rows, done, adas)
    requires forall k :: 0 <= k < |utxos| ==> adas'[k] == if utxos[k] == utxos[done] then None else adas[k]
    ensures AdaDeleted(utxos, rows, done + 1, adas')
  {
    assert utxos[..done + 1] == utxos[..done] + [utxos[done]];
  }

  lemma ObjectOfNext(rows: seq<Row>, n: nat)
    requires n < |rows| && AllConvertible(rows[..n]) && Convertible(rows[n])
    ensures AllConvertible(rows[..n + 1])
    ensures ObjectOf(rows[..n + 1]) == Put(ObjectOf(rows[..n]), Key(rows[n].id, rows[n].index), EntryOf(rows[n]))
  {
    assert rows[..n + 1][..n] == rows[..n];
  }

  lemma OneMoreConverted(utxos: seq<Output>, rows: seq<Row>, done: nat, adas: seq<Option<int>>,
                         adas': seq<Option<int>>, made: seq<Field>)
    requires done < |utxos| == |rows| == |adas| == |adas'| && Converted(utxos, rows, done, adas, made)
    requires adas[done].Some? && Readable(rows[done].attached.datum)
    requires forall k :: 0 <= k < |utxos| ==> adas'[k] == if utxos[k] == utxos[done] then None else adas[k]
    ensures rows[done].ada == adas[done]
    ensures Converted(utxos, rows, done + 1, adas',
                      Put(made, Key(rows[done].id, rows[done].index), EntryOf(rows[done])))
  {
    NotYetDeleted(utxos, rows, done, adas);
    OneMoreDeleted(utxos, rows, done, adas, adas');
    ObjectOfNext(rows, done);
  }

  /** How many elements a run that converts `done` of them has taken the ada from: one more when it ended
      on a datum that cannot be read. */
  function Touched(utxos: seq<Output>, rows: seq<Row>, done: nat): (n: nat)
    requires done <= |utxos| == |rows|
    ensures done <= n <= |utxos|
  {
    if done < |utxos| && !LacksAda(utxos, rows, done) then done + 1 else done
  }

  /** Either the whole list is converted, or the first element that throws ends the run; in both cases
      exactly the elements it got to the ada of have lost it. */
  method ConvertUtxoToUTxOObject(utxos: seq<Output>) returns (r: Option<seq<Field>>, ghost done: nat)
    modifies utxos
    ensures done <= |utxos| && (r.Some? <==> done == |utxos|)
    ensures NoneThrows(utxos, old(Rows(utxos)), done) && (done < |utxos| ==> Throws(utxos, old(Rows(utxos)), done))
    ensures AdaDeleted(utxos, old(Rows(utxos)), Touched(utxos, old(Rows(utxos)), done), Adas(utxos))
    ensures r.Some? ==> AllConvertible(old(Rows(utxos))) && r.value == ObjectOf(old(Rows(utxos)))
  {
    ghost var rows := Rows(utxos);
    var utxoObject: seq<Field> := [];
    for i := 0 to |utxos|
      invariant Converted(utxos, rows, i, Adas(utxos), utxoObject)
    {
      var utxo := utxos[i];
      ghost var adas := Adas(utxos);
      NotYetDeleted(utxos, rows, i, adas);
      if utxo.ada.None? {
        return None, i;
      }
      assert rows[i] == utxo.Snapshot();
      var entry := ConvertUtxo(utxo);
      if entry.None? {
        OneMoreDeleted(utxos, rows, i, adas, Adas(utxos));
        return None, i;
      }
      OneMoreConverted(utxos, rows, i, adas, Adas(utxos), utxoObject);
      utxoObject := Put(utxoObject, entry.value.key, entry.value.value);
    }
    assert rows[..|utxos|] == rows;
    return Some(utxoObject), |utxos|;
  }

  // ---------- datums and scripts ----------

  function Member(v: Option<Value>, key: string): Option<Value> {
    if v.Some? && v.value.Obj? then Lookup(v.value.fields, key) else None
  }

  /** An entry states the datum hash, the raw datum and its hash or null, all three faithfully: entries
      with equal attachments come from outputs whose hashes and datums read the same. */
  lemma DatumsStated(a: Attachments, b: Attachments)
    requires Readable(a.datum) && Readable(b.datum)
    requires AttachedFields(a) == AttachedFields(b)
    ensures OrNull(a.datumHash) == OrNull(b.datumHash)
    ensures HasDatum(a.datum) <==> HasDatum(b.datum)
    ensures HasDatum(a.datum) ==> a.datum == b.datum
  {
  }

  /** A text that is there and not empty, or null. */
  predicate TextOrNull(v: Option<Value>, text: Option<string>) {
    if text.Some? && text.value != "" then v == Some(Str(text.value)) else v == Some(Null)
  }

  lemma FirstParts(row: Row)
    requires Convertible(row)
    ensures var e, parts := Some(EntryOf(row)), AttachedFields(row.attached);
            && Member(e, "address") == Some(Str(row.address)) && Member(e, "datum") == Some(parts[0].value)
            && Member(e, "datumhash") == Some(parts[1].value)
  {
    FirstAt(EntryOf(row).fields, "address", 0);
    FirstAt(EntryOf(row).fields, "datum", 2);
    FirstAt(EntryOf(row).fields, "datumhash", 3);
  }

  lemma InlineParts(row: Row)
    requires Convertible(row)
    ensures var e, parts := Some(EntryOf(row)), AttachedFields(row.attached);
            && Member(e, "inlineDatumhash") == Some(parts[2].value)
            && Member(e, "inlineDatumRaw") == Some(parts[3].value)
  {
    FirstAt(EntryOf(row).fields, "inlineDatumhash", 4);
    FirstAt(EntryOf(row).fields, "inlineDatumRaw", 5);
  }

  lemma LastParts(row: Row)
    requires Convertible(row)
    ensures var e, parts := Some(EntryOf(row)), AttachedFields(row.attached);
            Member(e, "inlineDatum") == Some(parts[4].value) && Member(e, "referenceScript") == Some(parts[5].value)
  {
    FirstAt(EntryOf(row).fields, "inlineDatum", 6);
    FirstAt(EntryOf(row).fields, "referenceScript", 7);
  }

  /** Property by property, an entry states the output's own address and hash, and the raw datum with its
      hash and reading where there is one; `datum` is always null. */
  lemma EntryStates(row: Row)
    requires Convertible(row)
    ensures var e, a := Some(EntryOf(row)), row.attached;
            && Member(e, "address") == Some(Str(row.address)) && Member(e, "datum") == Some(Null)
            && TextOrNull(Member(e, "datumhash"), a.datumHash)
            && Member(e, "referenceScript") == Some(ConvertReferenceScript(a.script))
    ensures var e, d := Some(EntryOf(row)), row.attached.datum;
            if d.Inline? && d.raw != "" then
              Member(e, "inlineDatumRaw") == Some(Str(d.raw)) && d.reading.Some? &&
              Member(e, "inlineDatumhash") == Some(Str(d.reading.value.hash)) &&
              Member(e, "inlineDatum") == Some(d.reading.value.json)
            else
              Member(e, "inlineDatumRaw") == Member(e, "inlineDatumhash") == Member(e, "inlineDatum") == Some(Null)
  {
    FirstParts(row);
    InlineParts(row);
    LastParts(row);
  }

  const LANGUAGES := {"native", "plutus:v1", "plutus:v2", "plutus:v3"}

  lemma LanguagesApart()
    ensures |"native"| == 6 && "plutus:v1"[8] == '1' && "plutus:v2"[8] == '2' && "plutus:v3"[8] == '3'
    ensures |"plutus:v1"| == |"plutus:v2"| == |"plutus:v3"| == 9
  {
  }

  /** What a known script becomes: its kind carries the Plutus version, the last character of the language. */
  lemma ScriptParts(s: Script)
    requires s.language in LANGUAGES
    ensures var native := s.language == "native";
            ConvertReferenceScript(Some(s)) ==
            ScriptObject(s.language,
                         if native then "SimpleScript" else "PlutusScriptV" + s.language[|s.language| - 1..],
                         if native then s.json else "", CborHex(s))
  {
    LanguagesApart();
    assert s.language != "native" ==> s.language[|s.language| - 1..] == [s.language[8]];
    assert "PlutusScriptV" + ['1'] == "PlutusScriptV1" && "PlutusScriptV" + ['2'] == "PlutusScriptV2";
    assert "PlutusScriptV" + ['3'] == "PlutusScriptV3";
  }

  /** Property by property, a known script states its language, its kind and its code, and a native one its
      terms. */
  lemma ScriptStates(s: Script)
    requires s.language in LANGUAGES
    ensures var e := Some(ConvertReferenceScript(Some(s))); var native := s.language == "native";
            && Member(e, "scriptLanguage") == Some(Str(s.language))
            && Member(Member(e, "script"), "type") ==
               Some(Str(if native then "SimpleScript" else "PlutusScriptV" + s.language[|s.language| - 1..]))
            && Member(Member(e, "script"), "description") == Some(Str(if native then s.json else ""))
            && Member(Member(e, "script"), "cborHex") ==
               Some(if s.cbor.Some? then Str(s.cbor.value) else Undefined)
  {
    ScriptParts(s);
    var fields := ConvertReferenceScript(Some(s)).fields;
    FirstAt(fields, "scriptLanguage", 0);
    FirstAt(fields, "script", 1);
    var inner := fields[1].value.fields;
    FirstAt(inner, "type", 0);
    FirstAt(inner, "description", 1);
    FirstAt(inner, "cborHex", 2);
  }

  /** A script is dropped exactly when there is none or its language is unknown; otherwise the object
      tells the language and the code, and of a native script its terms. */
  lemma ReferenceScriptKept(s: Option<Script>, t: Option<Script>)
    requires ConvertReferenceScript(s) == ConvertReferenceScript(t)
    ensures ConvertReferenceScript(s) == Null <==> s.None? || s.value.language !in LANGUAGES
    ensures ConvertReferenceScript(s) != Null ==>
              t.Some? && s.value.language == t.value.language && s.value.cbor == t.value.cbor &&
              (s.value.language == "native" ==> s.value.json == t.value.json)
  {
    if ConvertReferenceScript(s) != Null {
      LanguagesApart();
      ScriptParts(s.value);
      ScriptParts(t.value);
    }
  }

  // ---------- the keys ----------

  /** The last separator of a key is the one before the index, whatever the id holds. */
  lemma SameTail(a: string, m: string, b: string, n: string)
    requires FreeOf(m, {'#'}) && FreeOf(n, {'#'})
    requires a + "#" + m == b + "#" + n
    ensures a == b && m == n
  {
    var whole := a + "#" + m;
    assert whole == b + "#" + n;
    assert whole[|a|] == whole[|b|] == '#';
    assert forall i :: |a| < i < |whole| ==> whole[i] == m[i - |a| - 1];
    assert forall i :: |b| < i < |whole| ==> whole[i] == n[i - |b| - 1];
    assert |a| == |b|;
    assert a == whole[..|a|] && b == whole[..|a|];
    assert m == whole[|a| + 1..] && n == whole[|a| + 1..];
  }

  /** A key is the id, a separator and the canonical numeral of the index. */
  lemma KeyText(id: string, index: nat, key: string)
    ensures key == Key(id, index) <==>
            id + "#" <= key && Canonical(key[|id| + 1..]) && ParseNat(key[|id| + 1..]) == index
  {
    if id + "#" <= key {
      NatTextExact(key[|id| + 1..], index);
      assert key == id + "#" + key[|id| + 1..];
    }
    assert Key(id, index)[|id| + 1..] == NatToString(index);
    NatTextExact(NatToString(index), index);
  }

  lemma KeyInjective(a: string, m: nat, b: string, n: nat)
    requires Key(a, m) == Key(b, n)
    ensures a == b && m == n
  {
    NumeralFreeOf(m, {'#'});
    NumeralFreeOf(n, {'#'});
    SameTail(a, NatToString(m), b, NatToString(n));
    NatToStringInjective(m, n);
  }

  lemma KeyNotProto(id: string, index: nat)
    ensures Key(id, index) != PROTO
  {
    assert Key(id, index)[|id|] == '#';
  }

  predicate SameRef(a: Row, b: Row) {
    a.id == b.id && a.index == b.index
  }

  predicate DistinctRefs(rows: seq<Row>) {
    forall i, j :: 0 <= i < j < |rows| ==> !SameRef(rows[i], rows[j])
  }

  predicate HasKey(fields: seq<Field>, key: string) {
    exists i :: 0 <= i < |fields| && fields[i].key == key
  }

  predicate HasRef(rows: seq<Row>, id: string, index: nat) {
    exists i :: 0 <= i < |rows| && rows[i].id == id && rows[i].index == index
  }

  lemma PutKeys(fields: seq<Field>, key: string, value: Value, k: string)
    requires key != PROTO
    ensures HasKey(Put(fields, key, value), k) <==> HasKey(fields, k) || k == key
    ensures |Put(fields, key, value)| == |fields| + if HasKey(fields, key) then 0 else 1
  {
    var i := IndexOf(fields, key);
    var r := Put(fields, key, value);
    if HasKey(fields, k) {
      var j :| 0 <= j < |fields| && fields[j].key == k;
      assert r[j].key == k;
    }
    assert k == key && i == |fields| ==> r[i].key == k;
    if HasKey(r, k) && k != key {
      var j :| 0 <= j < |r| && r[j].key == k;
      assert j < |fields| && fields[j].key == k;
    }
  }

  lemma HasRefFront(rows: seq<Row>, id: string, index: nat)
    requires rows != []
    ensures var last := rows[|rows| - 1];
            HasRef(rows, id, index) <==> HasRef(rows[..|rows| - 1], id, index) || (last.id == id && last.index == index)
  {
    var front := rows[..|rows| - 1];
    if HasRef(front, id, index) {
      var i :| 0 <= i < |front| && front[i].id == id && front[i].index == index;
      assert rows[i] == front[i];
    }
    if HasRef(rows, id, index) {
      var i :| 0 <= i < |rows| && rows[i].id == id && rows[i].index == index;
      assert i < |front| ==> front[i] == rows[i];
    }
  }

  /** The keys of the object are exactly the references of the list. */
  lemma {:induction false} KeysAreRefs(rows: seq<Row>, id: string, index: nat)
    requires AllConvertible(rows)
    ensures HasKey(ObjectOf(rows), Key(id, index)) <==> HasRef(rows, id, index)
  {
    if rows != [] {
      var front, last := rows[..|rows| - 1], rows[|rows| - 1];
      KeysAreRefs(front, id, index);
      KeyNotProto(last.id, last.index);
      PutKeys(ObjectOf(front), Key(last.id, last.index), EntryOf(last), Key(id, index));
      if Key(id, index) == Key(last.id, last.index) {
        KeyInjective(id, index, last.id, last.index);
        assert rows[|rows| - 1].id == id;
      }
      HasRefFront(rows, id, index);
    }
  }

  lemma DistinctRefsFront(rows: seq<Row>)
    requires rows != []
    ensures var last := rows[|rows| - 1];
            DistinctRefs(rows) <==> DistinctRefs(rows[..|rows| - 1]) && !HasRef(rows[..|rows| - 1], last.id, last.index)
  {
    var front, last := rows[..|rows| - 1], rows[|rows| - 1];
    if HasRef(front, last.id, last.index) {
      var i :| 0 <= i < |front| && front[i].id == last.id && front[i].index == last.index;
      assert SameRef(rows[i], rows[|rows| - 1]);
    }
    if DistinctRefs(rows) {
      assert forall i :: 0 <= i < |front| ==> front[i] == rows[i];
    }
    if DistinctRefs(front) && !HasRef(front, last.id, last.index) {
      forall i, j | 0 <= i < j < |rows| ensures !SameRef(rows[i], rows[j]) {
        assert front[i] == rows[i];
        assert j < |front| ==> front[j] == rows[j];
      }
    }
  }

  /** No output is lost exactly when no reference is listed twice. */
  lemma {:induction false} NothingLostIff(rows: seq<Row>)
    requires AllConvertible(rows)
    ensures |ObjectOf(rows)| <= |rows|
    ensures |ObjectOf(rows)| == |rows| <==> DistinctRefs(rows)
  {
    if rows != [] {
      var front, last := rows[..|rows| - 1], rows[|rows| - 1];
      NothingLostIff(front);
      KeyNotProto(last.id, last.index);
      PutKeys(ObjectOf(front), Key(last.id, last.index), EntryOf(last), "");
      KeysAreRefs(front, last.id, last.index);
      DistinctRefsFront(rows);
    }
  }

  /** The properties are the outputs, one for one and in order. */
  predicate InOrder(fields: seq<Field>, rows: seq<Row>)
    requires AllConvertible(rows)
  {
    |fields| == |rows| &&
    forall i :: 0 <= i < |rows| ==> fields[i] == Field(Key(rows[i].id, rows[i].index), EntryOf(rows[i]))
  }

  lemma InOrderNext(fields: seq<Field>, rows: seq<Row>)
    requires rows != [] && AllConvertible(rows) && InOrder(fields, rows[..|rows| - 1])
    ensures var last := rows[|rows| - 1];
            InOrder(fields + [Field(Key(last.id, last.index), EntryOf(last))], rows)
  {
  }

  /** With distinct references the i-th property of the object is the i-th output of the list. */
  lemma {:induction false} ObjectInOrder(rows: seq<Row>)
    requires AllConvertible(rows) && DistinctRefs(rows)
    ensures InOrder(ObjectOf(rows), rows)
  {
    if rows != [] {
      var front, last := rows[..|rows| - 1], rows[|rows| - 1];
      DistinctRefsFront(rows);
      ObjectInOrder(front);
      KeysAreRefs(front, last.id, last.index);
      KeyNotProto(last.id, last.index);
      PutNew(ObjectOf(front), Key(last.id, last.index), EntryOf(last));
      InOrderNext(ObjectOf(front), rows);
    }
  }

  // ---------- the amounts ----------

  /** The amount a converted value states, in the one canonical decimal text of it. */
  function Stated(v: Option<Value>): Option<int> {
    if v.Some? && v.value.Str? && CanonicalInt(v.value.s) then Some(ParseInt(v.value.s)) else None
  }

  function StatedLovelace(entry: Value): Option<int> {
    Stated(Member(Member(Some(entry), "value"), "lovelace"))
  }

  function StatedQuantity(entry: Value, policy: string, asset: string): Option<int> {
    Stated(Member(Member(Member(Some(entry), "value"), policy), asset))
  }

  /** The quantity of an asset in an output of the list. */
  function Quantity(row: Row, policy: string, asset: string): Option<int> {
    var q := Member(Lookup(row.assets, policy), asset);
    if q.Some? && q.value.Big? then Some(q.value.i) else None
  }

  predicate PolicyOk(v: Value) {
    v.Obj? && DistinctKeys(v.fields) && NoProto(v.fields) &&
    forall i :: 0 <= i < |v.fields| ==> v.fields[i].value.Big?
  }

  /** Policies hold quantities under asset names; no key occurs twice or is `__proto__`. */
  predicate AssetsOk(assets: seq<Field>) {
    DistinctKeys(assets) && NoProto(assets) && forall i :: 0 <= i < |assets| ==> PolicyOk(assets[i].value)
  }

  lemma {:induction false} SameIndex(a: seq<Field>, b: seq<Field>, key: string)
    requires |a| == |b| && forall i :: 0 <= i < |a| ==> a[i].key == b[i].key
    ensures IndexOf(a, key) == IndexOf(b, key)
  {
    if a != [] && a[0].key != key {
      SameIndex(a[1..], b[1..], key);
    }
  }

  lemma {:induction false} SpreadLookup(target: seq<Field>, source: seq<Field>, key: string)
    requires DistinctKeys(source) && NoProto(source)
    ensures Lookup(Spread(target, source), key) ==
            if Lookup(source, key).Some? then Lookup(source, key) else Lookup(target, key)
  {
    if source != [] {
      var n := |source| - 1;
      var front, last := source[..n], source[n];
      SpreadLookup(target, front, key);
      PutLookup(Spread(target, front), last.key, last.value, key);
      LookupFront(source, key);
    }
  }

  lemma OneField(name: string, value: Value, key: string)
    ensures Lookup([Field(name, value)], key) == if key == name then Some(value) else None
  {
  }

  lemma EntryValue(row: Row)
    requires Convertible(row)
    ensures Member(Some(EntryOf(row)), "value") == Some(Obj(ValueOf(row)))
  {
    FirstAt(EntryOf(row).fields, "value", 1);
  }

  lemma ValueMember(row: Row, key: string)
    requires Convertible(row) && AssetsOk(row.assets)
    ensures Member(Member(Some(EntryOf(row)), "value"), key) ==
            if Lookup(row.assets, key).Some? then Some(Stringify(Lookup(row.assets, key).value))
            else if key == "lovelace" then Some(Str(IntToString(row.ada.value))) else None
  {
    EntryValue(row);
    StringifyLookup(row.assets, key);
    StringifyFieldsShape(row.assets);
    SpreadLookup([Field("lovelace", Str(IntToString(row.ada.value)))], StringifyFields(row.assets), key);
    OneField("lovelace", Str(IntToString(row.ada.value)), key);
  }

  /** The stated lovelace is the output's own exactly when no policy is called lovelace. */
  lemma LovelaceStated(row: Row)
    requires Convertible(row) && AssetsOk(row.assets)
    ensures StatedLovelace(EntryOf(row)) == row.ada <==> !HasKey(row.assets, "lovelace")
  {
    ValueMember(row, "lovelace");
    IntTextExact(IntToString(row.ada.value), row.ada.value);
    var i := IndexOf(row.assets, "lovelace");
    if i < |row.assets| {
      assert PolicyOk(row.assets[i].value);
    }
  }

  lemma HeldStated(held: Value, asset: string)
    requires PolicyOk(held)
    ensures var q := Lookup(held.fields, asset);
            Stated(Member(Some(Stringify(held)), asset)) == if q.Some? && q.value.Big? then Some(q.value.i) else None
  {
    StringifyLookup(held.fields, asset);
    var j := IndexOf(held.fields, asset);
    if j < |held.fields| {
      IntTextExact(IntToString(held.fields[j].value.i), held.fields[j].value.i);
    }
  }

  /** Every asset quantity is stated as it was, and no asset is stated that was not there. */
  lemma QuantityStated(row: Row, policy: string, asset: string)
    requires Convertible(row) && AssetsOk(row.assets)
    ensures StatedQuantity(EntryOf(row), policy, asset) == Quantity(row, policy, asset)
  {
    ValueMember(row, policy);
    var i := IndexOf(row.assets, policy);
    if i < |row.assets| {
      assert PolicyOk(row.assets[i].value);
      HeldStated(row.assets[i].value, asset);
    }
  }

  function Amount(a: Option<int>): int {
    if a.Some? then a.value else 0
  }

  function Total<T>(xs: seq<T>, f: T -> Option<int>): int {
    if xs == [] then 0 else Total(xs[..|xs| - 1], f) + Amount(f(xs[|xs| - 1]))
  }

  lemma {:induction false} SameTotal<T, U>(xs: seq<T>, f: T -> Option<int>, ys: seq<U>, g: U -> Option<int>)
    requires |xs| == |ys| && forall i :: 0 <= i < |xs| ==> f(xs[i]) == g(ys[i])
    ensures Total(xs, f) == Total(ys, g)
  {
    if xs != [] {
      SameTotal(xs[..|xs| - 1], f, ys[..|ys| - 1], g);
    }
  }

  predicate PlainAssets(row: Row) {
    AssetsOk(row.assets) && !HasKey(row.assets, "lovelace")
  }

  /** No lovelace and no asset quantity is lost or made up: what the object states sums to the list's totals. */
  lemma Conservation(rows: seq<Row>, policy: string, asset: string)
    requires AllConvertible(rows) && DistinctRefs(rows) && forall i :: 0 <= i < |rows| ==> PlainAssets(rows[i])
    ensures Total(ObjectOf(rows), (f: Field) => StatedLovelace(f.value)) == Total(rows, (row: Row) => row.ada)
    ensures Total(ObjectOf(rows), (f: Field) => StatedQuantity(f.value, policy, asset)) ==
            Total(rows, (row: Row) => Quantity(row, policy, asset))
  {
    var converted := ObjectOf(rows);
    ObjectInOrder(rows);
    forall i | 0 <= i < |rows|
      ensures StatedLovelace(converted[i].value) == rows[i].ada
      ensures StatedQuantity(converted[i].value, policy, asset) == Quantity(rows[i], policy, asset)
    {
      LovelaceStated(rows[i]);
      QuantityStated(rows[i], policy, asset);
    }
    SameTotal(converted, (f: Field) => StatedLovelace(f.value), rows, (row: Row) => row.ada);
    SameTotal(converted, (f: Field) => StatedQuantity(f.value, policy, asset),
              rows, (row: Row) => Quantity(row, policy, asset));
  }

  // ---------- reading references back (queryUtxo) ----------

  predicate IsSpace(c: char) {
    c in {' ', '\t', '\n', '\r', '\U{000B}', '\U{000C}', '\U{00A0}', '\U{1680}', '\U{2028}', '\U{2029}', '\U{202F}',
          '\U{205F}', '\U{3000}', '\U{FEFF}'} || '\U{2000}' <= c <= '\U{200A}'
  }

  function TrimStart(s: string): string {
    if s != "" && IsSpace(s[0]) then TrimStart(s[1..]) else s
  }

  function DigitPrefix(s: string): (r: string)
    ensures AllDigits(r) && r <= s
  {
    if s != "" && IsDigit(s[0]) then [s[0]] + DigitPrefix(s[1..]) else ""
  }

  /** The number that the digits in front of s make. */
  function Magnitude(s: string): Option<nat> {
    if DigitPrefix(s) == "" then None else Some(ParseNat(DigitPrefix(s)))
  }

  /** What parseInt makes of a text without white space in front. */
  function ParseTrimmed(t: string): Option<int> {
    if t != "" && t[0] == '-' then
      match Magnitude(t[1..]) case None => None case Some(n) => Some(-(n as int))
    else Magnitude(if t != "" && t[0] == '+' then t[1..] else t)
  }

  /** parseInt(s, 10), None for NaN. */
  function ParseInt10(s: string): Option<int> {
    ParseTrimmed(TrimStart(s))
  }

  datatype OutputReference = OutputReference(index: int, id: string)

  function ParseReference(txHash: string): Option<OutputReference> {
    var parts := Split(txHash, '#');
    var index := if |parts| > 1 then ParseInt10(parts[1]) else None;
    if index.None? then None else Some(OutputReference(index.value, parts[0]))
  }

  /** One bad reference fails the whole query. */
  function ParseReferences(txHashes: seq<string>): Option<seq<OutputReference>> {
    Seqs.Traverse(txHashes, ParseReference)
  }

  lemma {:induction false} DigitPrefixOfNumeral(s: string)
    requires AllDigits(s)
    ensures DigitPrefix(s) == s
  {
    if s != "" {
      DigitPrefixOfNumeral(s[1..]);
    }
  }

  lemma ParseInt10Numeral(n: nat)
    ensures ParseInt10(NatToString(n)) == Some(n)
  {
    var s := NatToString(n);
    assert IsDigit(s[0]) && !IsSpace(s[0]);
    DigitPrefixOfNumeral(s);
    ParseNatToString(n);
  }

  predicate AllSpace(s: string) {
    forall i :: 0 <= i < |s| ==> IsSpace(s[i])
  }

  /** The pieces parseInt sees: white space, a sign, the digits behind it, and whatever is left. */
  predicate IntPieces(space: string, sign: string, digits: string, rest: string) {
    && AllSpace(space) && sign in {"", "-", "+"} && AllDigits(digits) && (rest != "" ==> !IsDigit(rest[0]))
    && (sign == digits == "" && rest != "" ==> !IsSpace(rest[0]) && rest[0] !in {'-', '+'})
  }

  lemma {:induction false} TrimStartExact(space: string, rest: string)
    requires AllSpace(space) && (rest != "" ==> !IsSpace(rest[0]))
    ensures TrimStart(space + rest) == rest
  {
    if space == "" {
      assert space + rest == rest;
    } else {
      assert (space + rest)[1..] == space[1..] + rest;
      TrimStartExact(space[1..], rest);
    }
  }

  lemma {:induction false} DigitPrefixExact(digits: string, rest: string)
    requires AllDigits(digits) && (rest != "" ==> !IsDigit(rest[0]))
    ensures DigitPrefix(digits + rest) == digits
  {
    if digits == "" {
      assert digits + rest == rest;
    } else {
      assert (digits + rest)[1..] == digits[1..] + rest;
      DigitPrefixExact(digits[1..], rest);
    }
  }

  lemma MagnitudeExact(digits: string, rest: string)
    requires AllDigits(digits) && (rest != "" ==> !IsDigit(rest[0]))
    ensures Magnitude(digits + rest) == if digits == "" then None else Some(ParseNat(digits))
  {
    DigitPrefixExact(digits, rest);
  }

  lemma ParseUnsigned(digits: string, rest: string)
    requires IntPieces("", "", digits, rest)
    ensures ParseTrimmed(digits + rest) == if digits == "" then None else Some(ParseNat(digits))
  {
    var t := digits + rest;
    assert t != "" ==> t[0] == if digits != "" then digits[0] else rest[0];
    assert t != "" ==> t[0] != '-' && t[0] != '+';
    MagnitudeExact(digits, rest);
  }

  lemma ParseSigned(sign: char, digits: string, rest: string)
    requires sign in {'-', '+'} && AllDigits(digits) && (rest != "" ==> !IsDigit(rest[0]))
    ensures ParseTrimmed([sign] + (digits + rest)) ==
            if digits == "" then None
            else if sign == '-' then Some(-(ParseNat(digits) as int)) else Some(ParseNat(digits))
  {
    var tail := digits + rest;
    assert ([sign] + tail)[1..] == tail;
    MagnitudeExact(digits, rest);
  }

  /** parseInt reads the digits behind white space and a sign, and fails when there are none. */
  lemma ParseInt10Exact(space: string, sign: string, digits: string, rest: string)
    requires IntPieces(space, sign, digits, rest)
    ensures ParseInt10(space + (sign + (digits + rest))) ==
            if digits == "" then None
            else if sign == "-" then Some(-(ParseNat(digits) as int)) else Some(ParseNat(digits))
  {
    var t := sign + (digits + rest);
    assert t != "" ==> !IsSpace(t[0]);
    TrimStartExact(space, t);
    if sign == "" {
      assert t == digits + rest;
      ParseUnsigned(digits, rest);
    } else {
      assert sign == [sign[0]];
      ParseSigned(sign[0], digits, rest);
    }
  }

  lemma SpaceSpan(s: string) returns (i: nat)
    ensures i <= |s| && AllSpace(s[..i]) && (i < |s| ==> !IsSpace(s[i]))
  {
    i := 0;
    while i < |s| && IsSpace(s[i])
      invariant i <= |s| && AllSpace(s[..i])
    {
      i := i + 1;
    }
  }

  lemma DigitSpan(s: string) returns (i: nat)
    ensures i <= |s| && AllDigits(s[..i]) && (i < |s| ==> !IsDigit(s[i]))
  {
    i := 0;
    while i < |s| && IsDigit(s[i])
      invariant i <= |s| && AllDigits(s[..i])
    {
      i := i + 1;
    }
  }

  /** Every text falls into such pieces. */
  lemma HasIntPieces(s: string) returns (space: string, sign: string, digits: string, rest: string)
    ensures s == space + (sign + (digits + rest)) && IntPieces(space, sign, digits, rest)
  {
    var i := SpaceSpan(s);
    space := s[..i];
    var t := s[i..];
    sign := if t != "" && t[0] in {'-', '+'} then [t[0]] else "";
    var j := DigitSpan(t[|sign|..]);
    digits, rest := t[|sign|..][..j], t[|sign|..][j..];
    assert t == sign + (digits + rest);
  }

  /** A reference without `#` is refused; otherwise the id is what stands before the first one, and the
      index what parseInt makes of the text up to the next one, if it makes anything of it. */
  lemma ParseReferenceExact(id: string, field: string, rest: string)
    requires FreeOf(id, {'#'}) && FreeOf(field, {'#'}) && CutAt(rest, {'#'})
    ensures ParseReference(id) == None
    ensures ParseReference(id + "#" + (field + rest)) ==
            match ParseInt10(field) case None => None case Some(index) => Some(OutputReference(index, id))
  {
    SplitWhole(id, '#');
    SplitFirst(id, '#', field + rest);
    if rest == "" {
      assert field + rest == field;
      SplitWhole(field, '#');
    } else {
      assert field + rest == field + "#" + rest[1..];
      SplitFirst(field, '#', rest[1..]);
    }
  }

  /** A key of the object is read back as its output's id and index exactly when the id holds no '#'. */
  lemma ReferenceRoundTrip(id: string, index: nat)
    ensures ParseReference(Key(id, index)) == Some(OutputReference(index, id)) <==> FreeOf(id, {'#'})
  {
    if FreeOf(id, {'#'}) {
      SplitFirst(id, '#', NatToString(index));
      NumeralFreeOf(index, {'#'});
      SplitWhole(NatToString(index), '#');
      ParseInt10Numeral(index);
    }
  }

  function KeysOf(fields: seq<Field>): (keys: seq<string>)
    ensures |keys| == |fields|
  {
    seq(|fields|, i requires 0 <= i < |fields| => fields[i].key)
  }

  function Refs(rows: seq<Row>): (refs: seq<OutputReference>)
    ensures |refs| == |rows|
  {
    seq(|rows|, i requires 0 <= i < |rows| => OutputReference(rows[i].index, rows[i].id))
  }

  /** Querying for the keys of a converted list asks for exactly its outputs, in order, if and only if no
      transaction id holds a '#'. */
  lemma QueryRoundTrip(rows: seq<Row>)
    requires AllConvertible(rows) && DistinctRefs(rows)
    ensures ParseReferences(KeysOf(ObjectOf(rows))) == Some(Refs(rows)) <==>
            forall i :: 0 <= i < |rows| ==> FreeOf(rows[i].id, {'#'})
  {
    ObjectInOrder(rows);
    var keys := KeysOf(ObjectOf(rows));
    Seqs.TraverseAll(keys, ParseReference, Refs(rows));
    forall i | 0 <= i < |rows|
      ensures ParseReference(keys[i]) == Some(Refs(rows)[i]) <==> FreeOf(rows[i].id, {'#'})
    {
      ReferenceRoundTrip(rows[i].id, rows[i].index);
    }
  }
}
