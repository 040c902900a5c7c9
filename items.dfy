/** The n8n item model: JSON-like values, items with an optional binary
    attachment, and the single-key write both nodes perform on a copy of an
    input item. */
module Items {
  import opened Wrappers

  /** A JavaScript value that can sit in an item's `json`. `Undefined` is the
      value of `newValue` when no branch assigned it. */
  datatype JsValue =
    | Undefined
    | Null
    | Bool(b: bool)
    | Num(n: real)
    | Str(s: string)
    | Arr(elems: seq<JsValue>)
    | Obj(fields: map<string, JsValue>)

  /** One entry of an item's binary attachment (`IBinaryData`). */
  datatype BinaryData = BinaryData(data: string, mimeType: string, fileName: Option<string>)

  /** An input item: its `json` object and its optional `binary` map. */
  datatype InputItem = InputItem(json: map<string, JsValue>, binary: Option<map<string, BinaryData>>)

  /** An output item, always tagged with `pairedItem.item`. */
  datatype OutputItem = OutputItem(json: map<string, JsValue>, binary: Option<map<string, BinaryData>>, pairedItem: nat)

  /** The keys lodash's `set` refuses to write (prototype-pollution guard):
      `set` then returns the object untouched. */
  predicate IsGuardedKey(key: string) {
    key == "__proto__" || key == "constructor" || key == "prototype"
  }

  /** `set(obj, ['json', key], v)` on the `json` part of an item: the array
      path makes `key` one literal property name, dots included. */
  function SetKey(json: map<string, JsValue>, key: string, v: JsValue): (r: map<string, JsValue>)
    ensures !IsGuardedKey(key) ==> key in r && r[key] == v
    ensures IsGuardedKey(key) ==> r == json
    ensures forall k :: k != key ==> (k in r <==> k in json)
    ensures forall k :: k != key && k in json ==> r[k] == json[k]
  {
    if IsGuardedKey(key) then json else json[key := v]
  }

  /** The successful output of item `i`: a copy of the input's `json` with
      `key` set to `v`, the input's binary carried over when present, and
      `pairedItem.item = i`. Deep and shallow copy coincide on values. */
  function MergedItem(item: InputItem, i: nat, key: string, v: JsValue): (r: OutputItem)
    ensures r.pairedItem == i
    ensures r.binary == item.binary
    ensures !IsGuardedKey(key) ==> key in r.json && r.json[key] == v
    ensures forall k :: k != key ==> (k in r.json <==> k in item.json)
    ensures forall k :: k != key && k in item.json ==> r.json[k] == item.json[k]
    ensures IsGuardedKey(key) ==> r.json == item.json
  {
    OutputItem(SetKey(item.json, key, v), item.binary, i)
  }

  /** The item pushed by the catch block under continue-on-fail. */
  function ErrorItem(message: string, i: nat): OutputItem {
    OutputItem(map["error" := Str(message)], None, i)
  }

  /** A dotted output property name is one top-level key: writing "a.b" into
      {a: {b: 1, c: 2}} adds a key "a.b" and leaves "a" as it was. */
  lemma DottedNameIsLiteralKey(v: JsValue)
    ensures var a := Obj(map["b" := Num(1.0), "c" := Num(2.0)]);
            var r := MergedItem(InputItem(map["a" := a], None), 0, "a.b", v);
            r.json == map["a" := a, "a.b" := v]
  {
    var a := Obj(map["b" := Num(1.0), "c" := Num(2.0)]);
    var r := MergedItem(InputItem(map["a" := a], None), 0, "a.b", v);
    assert r.json.Keys == {"a", "a.b"};
  }
}
