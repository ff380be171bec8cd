/**
 The normalisation of seed JSON: `file_reference_hex` becomes `file_reference`, and a Python bytes
 literal under a `bytes` key becomes its hexadecimal form, at any depth.
 */
module SeedJson {
  import opened Ordering
  import opened Wrappers
  import opened PythonLiteral

  datatype Json =
    | Null
    | Bool(flag: bool)
    | Number(numeral: string)
    | Str(text: Text)
    | Arr(items: seq<Json>)
    | Obj(fields: map<string, Json>)

  const REFERENCE_HEX := "file_reference_hex"
  const REFERENCE := "file_reference"
  const BYTES := "bytes"

  /** The keys of an object once file_reference_hex has been renamed. */
  function KeysAfterRename(fields: map<string, Json>): set<string> {
    if REFERENCE_HEX in fields then fields.Keys - {REFERENCE_HEX} + {REFERENCE} else fields.Keys
  }

  /** Where the value of a key comes from: a renamed reference replaces one that was there. */
  function SourceKey(fields: map<string, Json>, key: string): string {
    if key == REFERENCE && REFERENCE_HEX in fields then REFERENCE_HEX else key
  }

  /** A string under `bytes` is decoded if it is a literal and left alone if it is not. */
  function NormalizeBytes(text: Text): Result<Json, DecodeError> {
    var r := LiteralToHex(text);
    if r.Err? then Err(r.error) else if r.value.1 then Ok(Str(r.value.0)) else Ok(Str(text))
  }

  /** The normalised tree, or None if some literal does not decode. */
  function Normalize(v: Json): Option<Json>
    decreases v, 0
  {
    match v
    case Arr(items) =>
      if forall i | 0 <= i < |items| :: Normalize(items[i]).Some? then
        Some(Arr(seq(|items|, i requires 0 <= i < |items| => Normalize(items[i]).value)))
      else None
    case Obj(fields) =>
      if forall k | k in KeysAfterRename(fields) :: NormalizeField(k, fields[SourceKey(fields, k)]).Some? then
        Some(Obj(map k | k in KeysAfterRename(fields) :: NormalizeField(k, fields[SourceKey(fields, k)]).value))
      else None
    case _ => Some(v)
  }

  function NormalizeField(key: string, v: Json): Option<Json>
    decreases v, 1
  {
    if key == BYTES && v.Str? then
      var r := NormalizeBytes(v.text);
      if r.Ok? then Some(r.value) else None
    else Normalize(v)
  }

  /** No file_reference_hex anywhere, and nothing under a `bytes` key that reads as a literal. */
  predicate Normal(v: Json) {
    match v
    case Arr(items) => forall i | 0 <= i < |items| :: Normal(items[i])
    case Obj(fields) =>
      && REFERENCE_HEX !in fields
      && forall k | k in fields ::
           if k == BYTES && fields[k].Str? then !LooksLikeLiteral(fields[k].text) else Normal(fields[k])
    case _ => true
  }

  lemma {:induction false} NormalizedIsNormal(v: Json)
    requires Normalize(v).Some?
    ensures Normal(Normalize(v).value)
  {
    match v
    case Arr(items) =>
      forall i | 0 <= i < |items|
        ensures Normal(Normalize(items[i]).value)
      {
        NormalizedIsNormal(items[i]);
      }
    case Obj(fields) =>
      var out := Normalize(v).value.fields;
      forall k | k in out
        ensures if k == BYTES && out[k].Str? then !LooksLikeLiteral(out[k].text) else Normal(out[k])
      {
        var from := fields[SourceKey(fields, k)];
        assert out[k] == NormalizeField(k, from).value;
        if k == BYTES && from.Str? {
          if LooksLikeLiteral(from.text) {
            HexIsNoLiteral(Decode(from.text[2..|from.text| - 1]).value);
          }
        } else {
          NormalizedIsNormal(from);
        }
      }
    case _ =>
  }

  /** Nothing happens to a normal tree; with the lemma above this makes the rewrite idempotent, and says
      that a tree is left alone exactly when it is normal. */
  lemma {:induction false} NormalIsFixed(v: Json)
    requires Normal(v)
    ensures Normalize(v) == Some(v)
  {
    match v
    case Arr(items) =>
      forall i | 0 <= i < |items|
        ensures Normalize(items[i]) == Some(items[i])
      {
        NormalIsFixed(items[i]);
      }
      assert Normalize(v).value.items == items;
    case Obj(fields) =>
      forall k | k in fields
        ensures NormalizeField(k, fields[k]) == Some(fields[k])
      {
        if !(k == BYTES && fields[k].Str?) {
          NormalIsFixed(fields[k]);
        }
      }
      assert Normalize(v).value.fields == fields;
    case _ =>
  }

  /** Normalising is idempotent, and its fixed points are exactly the normal trees. */
  lemma NormalizeIdempotent(v: Json)
    ensures Normalize(v).Some? ==> Normalize(Normalize(v).value) == Normalize(v)
    ensures Normalize(v) == Some(v) <==> Normal(v)
  {
    if Normalize(v).Some? {
      NormalizedIsNormal(v);
      NormalIsFixed(Normalize(v).value);
    }
    if Normal(v) {
      NormalIsFixed(v);
    }
  }

  /** What becomes of the entries of an object: the reference takes the value it has in hexadecimal, also over
      one that stood under its own name; a string under `bytes` is decoded or left alone; the others are
      normalised, and none is lost. */
  lemma EntriesOfObject(fields: map<string, Json>)
    requires Normalize(Obj(fields)).Some?
    ensures Normalize(Obj(fields)).value.Obj?
    ensures var out := Normalize(Obj(fields)).value.fields;
            && (forall k :: k in out <==> if k == "file_reference_hex" then false
                                          else k in fields || (k == "file_reference" && "file_reference_hex" in fields))
            && ("file_reference_hex" in fields ==>
                  Normalize(fields["file_reference_hex"]) == Some(out["file_reference"]))
            && (forall k | k in fields && k in out && !(k == "file_reference" && "file_reference_hex" in fields) ::
                  if k == "bytes" && fields[k].Str? then
                    && out[k].Str?
                    && (LiteralToHex(fields[k].text) == Ok((out[k].text, true))
                        || (LiteralToHex(fields[k].text) == Ok((fields[k].text, false)) && out[k] == fields[k]))
                  else Normalize(fields[k]) == Some(out[k]))
  {
    LeftAsItIs(fields);
  }

  lemma LeftAsItIs(fields: map<string, Json>)
    ensures "bytes" in fields && fields["bytes"].Str? ==>
              var r := LiteralToHex(fields["bytes"].text);
              r.Ok? && !r.value.1 ==> r.value.0 == fields["bytes"].text
  {
  }

  /** Every literal under a `bytes` key decodes, at any depth, but for what a reference in hexadecimal replaces. */
  predicate AllDecode(v: Json) {
    match v
    case Arr(items) => forall i | 0 <= i < |items| :: AllDecode(items[i])
    case Obj(fields) =>
      forall k | k in fields && !(k == "file_reference" && "file_reference_hex" in fields) ::
        if k == "bytes" && fields[k].Str? then LiteralToHex(fields[k].text).Ok? else AllDecode(fields[k])
    case _ => true
  }

  lemma {:induction false} NormalizesIff(v: Json)
    ensures Normalize(v).Some? <==> AllDecode(v)
  {
    match v
    case Arr(items) =>
      forall i | 0 <= i < |items|
        ensures Normalize(items[i]).Some? <==> AllDecode(items[i])
      {
        NormalizesIff(items[i]);
      }
    case Obj(fields) =>
      forall k | k in fields
        ensures NormalizeField(k, fields[k]).Some? <==>
                if k == "bytes" && fields[k].Str? then LiteralToHex(fields[k].text).Ok? else AllDecode(fields[k])
      {
        NormalizesIff(fields[k]);
      }
      FieldsDecodeIff(fields);
    case _ =>
  }

  lemma FieldsDecodeIff(fields: map<string, Json>)
    requires forall k | k in fields ::
               NormalizeField(k, fields[k]).Some? <==>
               if k == "bytes" && fields[k].Str? then LiteralToHex(fields[k].text).Ok? else AllDecode(fields[k])
    ensures Normalize(Obj(fields)).Some? <==> AllDecode(Obj(fields))
  {
    if "file_reference_hex" in fields {
      var hex := fields["file_reference_hex"];
      assert NormalizeField("file_reference", hex) == NormalizeField("file_reference_hex", hex);
    }
    if Normalize(Obj(fields)).Some? {
      forall k | k in fields && !(k == "file_reference" && "file_reference_hex" in fields)
        ensures NormalizeField(k, fields[k]).Some?
      {
        var k' := if k == "file_reference_hex" then "file_reference" else k;
        assert k' in KeysAfterRename(fields) && SourceKey(fields, k') == k;
      }
    }
  }

  // ----- the rewrite as it runs, replacing the entries of each object one key at a time

  /** The entries once file_reference_hex has been renamed, before any value is rewritten. */
  function Renamed(fields: map<string, Json>): map<string, Json> {
    map k | k in KeysAfterRename(fields) :: fields[SourceKey(fields, k)]
  }

  method NormalizeSeedJson(v: Json) returns (r: Option<Json>)
    ensures r == Normalize(v)
    decreases v
  {
    match v
    case Arr(items) =>
      var out := items;
      for i := 0 to |items|
        invariant |out| == |items| && out[i..] == items[i..]
        invariant forall j | 0 <= j < i :: Normalize(items[j]) == Some(out[j])
      {
        var child := NormalizeSeedJson(items[i]);
        if child.None? {
          return None;
        }
        out := out[i := child.value];
      }
      assert Normalize(v).Some? ==> Normalize(v).value.items == out;
      return Some(Arr(out));
    case Obj(fields) =>
      r := NormalizeFields(v, fields);
    case _ => return Some(v);
  }

  /** The rewrite of an object: the entries are replaced one key at a time, in key order. */
  method NormalizeFields(v: Json, fields: map<string, Json>) returns (r: Option<Json>)
    requires v == Obj(fields)
    ensures r == Normalize(v)
    decreases v, 1
  {
    var out := Rename(fields);
    var keys := SortedKeys(out);
    for i := 0 to |keys|
      invariant Progress(fields, out, keys, i)
    {
      var child := NormalizeEntry(v, fields, keys[i], out[keys[i]]);
      if child.None? {
        FieldFails(fields, keys[i]);
        return None;
      }
      ProgressStep(fields, out, keys, i, child.value);
      out := out[keys[i] := child.value];
    }
    FieldsSucceed(fields, out, keys);
    return Some(Obj(out));
  }

  method Rename(fields: map<string, Json>) returns (out: map<string, Json>)
    ensures out == Renamed(fields)
  {
    out := fields;
    if REFERENCE_HEX in out {
      out := out[REFERENCE := out[REFERENCE_HEX]] - {REFERENCE_HEX};
    }
  }

  /** The first i keys hold their rewritten values and the others are as they were. */
  ghost predicate Progress(fields: map<string, Json>, out: map<string, Json>, keys: seq<string>, i: nat) {
    var renamed := Renamed(fields);
    && i <= |keys| && out.Keys == renamed.Keys
    && (forall k :: k in keys <==> k in out)
    && (forall j, k | 0 <= j < k < |keys| :: keys[j] != keys[k])
    && (forall j | 0 <= j < i :: NormalizeField(keys[j], renamed[keys[j]]) == Some(out[keys[j]]))
    && (forall j | i <= j < |keys| :: out[keys[j]] == renamed[keys[j]])
  }

  lemma ProgressStep(fields: map<string, Json>, out: map<string, Json>, keys: seq<string>, i: nat, child: Json)
    requires Progress(fields, out, keys, i) && i < |keys| && NormalizeField(keys[i], out[keys[i]]) == Some(child)
    ensures Progress(fields, out[keys[i] := child], keys, i + 1)
  {
    var next := out[keys[i] := child];
    assert keys[i] in out;
    assert next.Keys == out.Keys;
    assert forall j | 0 <= j < |keys| && j != i :: keys[j] in out && next[keys[j]] == out[keys[j]];
  }

  method SortedKeys(fields: map<string, Json>) returns (keys: seq<string>)
    ensures (forall k :: k in keys <==> k in fields) && forall i, j | 0 <= i < j < |keys| :: keys[i] != keys[j]
  {
    BeforeIsStrictTotalOrder();
    keys := Sorted(fields.Keys, Before);
  }

  /** The rewrite of one entry: a string under `bytes` goes to the decoder, all else is descended into. */
  method NormalizeEntry(v: Json, fields: map<string, Json>, key: string, value: Json) returns (child: Option<Json>)
    requires v == Obj(fields) && key in KeysAfterRename(fields) && value == fields[SourceKey(fields, key)]
    ensures child == NormalizeField(key, value)
    decreases v, 0
  {
    if key == BYTES && value.Str? {
      var text := PythonBytesLiteralToHex(value.text);
      return if text.Err? then None else Some(Str(text.value.0));
    }
    child := NormalizeSeedJson(value);
  }

  lemma FieldFails(fields: map<string, Json>, key: string)
    requires key in KeysAfterRename(fields) && NormalizeField(key, fields[SourceKey(fields, key)]).None?
    ensures Normalize(Obj(fields)) == None
  {
  }

  lemma FieldsSucceed(fields: map<string, Json>, out: map<string, Json>, keys: seq<string>)
    requires Progress(fields, out, keys, |keys|)
    ensures Normalize(Obj(fields)) == Some(Obj(out))
  {
    forall k | k in KeysAfterRename(fields)
      ensures NormalizeField(k, fields[SourceKey(fields, k)]) == Some(out[k])
    {
      assert k in keys;
    }
    FieldsAre(fields, out);
  }

  lemma FieldsAre(fields: map<string, Json>, out: map<string, Json>)
    requires out.Keys == KeysAfterRename(fields)
    requires forall k | k in out :: NormalizeField(k, fields[SourceKey(fields, k)]) == Some(out[k])
    ensures Normalize(Obj(fields)) == Some(Obj(out))
  {
    assert Normalize(Obj(fields)).value.fields == out;
  }

  // ----- what the seed writer meant

  /** A seed as its writer held it: the payload of a `bytes` field is a byte string. */
  datatype Seed =
    | Scalar(json: Json)
    | Bytes(data: Text)
    | List(seeds: seq<Seed>)
    | Record(entries: map<string, Seed>)

  /** A seed under a given key: byte strings stand under `bytes`, and no string there only looks like one. */
  predicate WellFormed(s: Seed, key: string) {
    match s
    case Scalar(json) => !json.Arr? && !json.Obj? && !(key == BYTES && json.Str? && LooksLikeLiteral(json.text))
    case Bytes(_) => key == BYTES
    case List(seeds) => forall i | 0 <= i < |seeds| :: WellFormed(seeds[i], "")
    case Record(entries) => REFERENCE_HEX !in entries && forall k | k in entries :: WellFormed(entries[k], k)
  }

  /** Python quotes a byte string with apostrophes unless it holds an apostrophe and no double quote. */
  function PythonQuote(data: Text): (q: Byte)
    ensures IsQuote(q)
  {
    if SINGLE in data && DOUBLE !in data then DOUBLE else SINGLE
  }

  function WrittenKeys(entries: map<string, Seed>): set<string> {
    if REFERENCE in entries then entries.Keys - {REFERENCE} + {REFERENCE_HEX} else entries.Keys
  }

  function MeantKey(entries: map<string, Seed>, key: string): string {
    if key == REFERENCE_HEX && REFERENCE in entries then REFERENCE else key
  }

  /** The file: byte strings in Python's spelling, the reference under its `_hex` name. */
  function Written(s: Seed): Json {
    match s
    case Scalar(json) => json
    case Bytes(data) => Str(Repr(data, PythonQuote(data)))
    case List(seeds) =>
      Arr(seq(|seeds|, i requires 0 <= i < |seeds| => Written(seeds[i])))
    case Record(entries) =>
      Obj(map k | k in WrittenKeys(entries) :: Written(entries[MeantKey(entries, k)]))
  }

  /** What the deployed JSON should hold: byte strings in hexadecimal, every key as the writer had it. */
  function Meant(s: Seed): Json {
    match s
    case Scalar(json) => json
    case Bytes(data) => Str(HexOf(data))
    case List(seeds) => Arr(seq(|seeds|, i requires 0 <= i < |seeds| => Meant(seeds[i])))
    case Record(entries) => Obj(map k | k in entries :: Meant(entries[k]))
  }

  /** Round trip at every depth: normalising the written file recovers what the writer meant. */
  lemma {:induction false} NormalizeRecoversSeed(s: Seed, key: string)
    requires WellFormed(s, key)
    ensures NormalizeField(key, Written(s)) == Some(Meant(s))
  {
    match s
    case Scalar(json) =>
    case Bytes(data) =>
      DecodeInvertsRepr(data, PythonQuote(data));
    case List(seeds) =>
      forall i | 0 <= i < |seeds|
        ensures Normalize(Written(s).items[i]) == Some(Meant(seeds[i]))
      {
        NormalizeRecoversSeed(seeds[i], "");
      }
      assert Normalize(Written(s)).value.items == Meant(s).items;
    case Record(entries) =>
      forall k | k in entries
        ensures NormalizeField(k, Written(entries[k])) == Some(Meant(entries[k]))
      {
        NormalizeRecoversSeed(entries[k], k);
      }
      NormalizeRecoversRecord(entries);
  }

  lemma NormalizeRecoversRecord(entries: map<string, Seed>)
    requires WellFormed(Record(entries), "")
    requires forall k | k in entries :: NormalizeField(k, Written(entries[k])) == Some(Meant(entries[k]))
    ensures Normalize(Written(Record(entries))) == Some(Meant(Record(entries)))
  {
    var fields := Written(Record(entries)).fields;
    WrittenFields(entries);
    FieldsAre(fields, Meant(Record(entries)).fields);
  }

  /** Renaming the reference back leads every key to what was written under it. */
  lemma WrittenFields(entries: map<string, Seed>)
    requires REFERENCE_HEX !in entries
    ensures var fields := Written(Record(entries)).fields;
            && KeysAfterRename(fields) == entries.Keys
            && forall k | k in entries :: fields[SourceKey(fields, k)] == Written(entries[k])
  {
  }
}
