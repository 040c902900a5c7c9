/** The `execute` method of the Base64 node: for every input item, base64
    encode or decode its `value` parameter (optionally JSON-parsing the
    decoded text) and write the result under `outputPropertyName` on a copy
    of the item. */
module Base64Node {
  import opened Wrappers
  import opened Bytes
  import opened Items
  import Batch
  import Utf8
  import Base64Codec

  const EncodeAction := "base64Encode"
  const DecodeAction := "base64Decode"

  /** The per-item parameter reads (`getNodeParameter(name, i)`), each of
      which may throw. `options` holds the `jsonParse` entry of the options
      collection, absent by default. */
  datatype Base64Params = Base64Params(
    outputPropertyName: Result<string>,
    value: Result<string>,
    options: Result<Option<bool>>)

  /** What the workflow host supplies: the action read at index 0, the
      parameters of every item index, and the node's continue-on-fail
      setting. */
  datatype Base64Host = Base64Host(
    action: Result<string>,
    params: nat -> Base64Params,
    continueOnFail: bool)

  /** Node.js behaviour this model leaves undefined: Buffer's lenient reading
      of non-canonical base64, Buffer's UTF-8 decoding of malformed bytes
      (replacement characters), and `JSON.parse`. */
  datatype Base64Lib = Base64Lib(
    lenientBase64: string -> seq<Byte>,
    lenientUtf8: seq<Byte> -> string,
    jsonParse: string -> Result<JsValue>)

  /** `Buffer.from(value).toString('base64')`. */
  function EncodeString(value: string): string {
    Base64Codec.Encode(Utf8.Encode(value))
  }

  /** `Buffer.from(value, 'base64')`: exact on canonical input. */
  function BufferFromBase64(value: string, lib: Base64Lib): seq<Byte> {
    match Base64Codec.Decode(value)
    case Some(b) => b
    case None => lib.lenientBase64(value)
  }

  /** `buffer.toString()`: exact on well-formed UTF-8. */
  function BufferToString(b: seq<Byte>, lib: Base64Lib): string {
    match Utf8.Decode(b)
    case Some(s) => s
    case None => lib.lenientUtf8(b)
  }

  /** `Buffer.from(value, 'base64').toString()`. */
  function DecodeString(value: string, lib: Base64Lib): string {
    BufferToString(BufferFromBase64(value, lib), lib)
  }

  /** Base64-decoding the encoding of a string gives the string back, by
      way of its UTF-8 bytes, whatever Node does on malformed input. */
  lemma DecodeEncodeString(value: string, lib: Base64Lib)
    ensures DecodeString(EncodeString(value), lib) == value
  {
    Base64Codec.DecodeEncode(Utf8.Encode(value));
    Utf8.DecodeEncode(value);
  }

  /** The encoding of a string of n UTF-8 bytes has 4 * ceil(n / 3)
      characters from the alphabet of section 4 of RFC 4648, `=` only as
      the final padding. */
  lemma EncodeStringShape(value: string)
    ensures var n := |Utf8.Encode(value)|; var s := EncodeString(value);
            |s| == 4 * ((n + 2) / 3) &&
            (forall k :: 0 <= k < |s| ==> (s[k] == '=' <==> |s| - Base64Codec.PadCount(n) <= k)) &&
            (forall k :: 0 <= k < |s| && s[k] != '=' ==> Base64Codec.IsBase64Char(s[k]))
  {
    Base64Codec.EncodeShape(Utf8.Encode(value));
  }

  /** The value written by the action; `Undefined` for an action neither
      branch recognises. */
  function NewValue(action: string, value: string, jsonParse: Option<bool>, lib: Base64Lib): (r: Result<JsValue>)
    ensures r.Err? ==> action == DecodeAction && jsonParse == Some(true) && r == lib.jsonParse(DecodeString(value, lib))
    ensures action == EncodeAction ==> r == Ok(Str(EncodeString(value)))
  {
    if action == EncodeAction then Ok(Str(EncodeString(value)))
    else if action == DecodeAction then
      var decoded := DecodeString(value, lib);
      if jsonParse == Some(true) then lib.jsonParse(decoded) else Ok(Str(decoded))
    else Ok(Undefined)
  }

  /** The try block for item i: the item it pushes, or the error it throws. */
  function ItemOutcome(i: nat, item: InputItem, action: string, p: Base64Params, lib: Base64Lib): (r: Result<OutputItem>)
    ensures r.Ok? <==>
              p.outputPropertyName.Ok? && p.value.Ok? && p.options.Ok? &&
              NewValue(action, p.value.value, p.options.value, lib).Ok?
    ensures p.outputPropertyName.Err? ==> r == Err(p.outputPropertyName.message)
    ensures p.outputPropertyName.Ok? && p.value.Err? ==> r == Err(p.value.message)
    ensures p.outputPropertyName.Ok? && p.value.Ok? && p.options.Err? ==> r == Err(p.options.message)
    ensures p.outputPropertyName.Ok? && p.value.Ok? && p.options.Ok? &&
            NewValue(action, p.value.value, p.options.value, lib).Err? ==>
              r == Err(NewValue(action, p.value.value, p.options.value, lib).message)
    ensures r.Ok? ==> r.value.pairedItem == i && r.value.binary == item.binary
    ensures r.Ok? && IsGuardedKey(p.outputPropertyName.value) ==> r.value.json == item.json
    ensures r.Ok? ==>
              var key := p.outputPropertyName.value;
              var v := NewValue(action, p.value.value, p.options.value, lib);
              v.Ok? &&
              (!IsGuardedKey(key) ==> key in r.value.json && r.value.json[key] == v.value) &&
              (forall k :: k != key ==> (k in r.value.json <==> k in item.json)) &&
              (forall k :: k != key && k in item.json ==> r.value.json[k] == item.json[k])
  {
    match p.outputPropertyName
    case Err(m) => Err(m)
    case Ok(key) =>
      match p.value
      case Err(m) => Err(m)
      case Ok(value) =>
        match p.options
        case Err(m) => Err(m)
        case Ok(jsonParse) =>
          match NewValue(action, value, jsonParse, lib)
          case Err(m) => Err(m)
          case Ok(v) => Ok(MergedItem(item, i, key, v))
  }

  /** The body of the try block, statement by statement. */
  method ProcessItem(i: nat, item: InputItem, action: string, p: Base64Params, lib: Base64Lib)
    returns (r: Result<OutputItem>)
    ensures r == ItemOutcome(i, item, action, p, lib)
  {
    if p.outputPropertyName.Err? {
      return Err(p.outputPropertyName.message);
    }
    var outputPropertyName := p.outputPropertyName.value;
    if p.value.Err? {
      return Err(p.value.message);
    }
    var value := p.value.value;
    if p.options.Err? {
      return Err(p.options.message);
    }
    var jsonParse := p.options.value;
    var newValue := Undefined;

    if action == EncodeAction {
      newValue := Str(EncodeString(value));
    }

    if action == DecodeAction {
      var decoded := DecodeString(value, lib);
      newValue := Str(decoded);
      if jsonParse == Some(true) {
        var parsed := lib.jsonParse(decoded);
        if parsed.Err? {
          return Err(parsed.message);
        }
        newValue := parsed.value;
      }
    }

    // Deep copy (dotted name) and shallow copy give the same value here.
    var newItem := OutputItem(item.json, None, i);
    if item.binary.Some? {
      newItem := newItem.(binary := item.binary);
    }
    newItem := newItem.(json := SetKey(newItem.json, outputPropertyName, newValue));
    return Ok(newItem);
  }

  /** The try-block outcome of every item, in input order. */
  function Outcomes(items: seq<InputItem>, action: string, host: Base64Host, lib: Base64Lib): (outs: seq<Result<OutputItem>>)
    ensures |outs| == |items|
    ensures forall k :: 0 <= k < |items| ==> outs[k] == ItemOutcome(k, items[k], action, host.params(k), lib)
  {
    seq(|items|, k requires 0 <= k < |items| => ItemOutcome(k, items[k], action, host.params(k), lib))
  }

  /** The whole batch: the action is read once, before the loop. */
  function ExecuteSpec(items: seq<InputItem>, host: Base64Host, lib: Base64Lib): Result<seq<OutputItem>> {
    match host.action
    case Err(m) => Err(m)
    case Ok(action) => Batch.Collect(Outcomes(items, action, host, lib), host.continueOnFail)
  }

  /** The loop of `execute`, pushing into `returnData`. */
  method Execute(items: seq<InputItem>, host: Base64Host, lib: Base64Lib) returns (r: Result<seq<OutputItem>>)
    ensures r == ExecuteSpec(items, host, lib)
  {
    if host.action.Err? {
      return Err(host.action.message);
    }
    var action := host.action.value;
    ghost var outs := Outcomes(items, action, host, lib);
    var returnData: seq<OutputItem> := [];
    var i := 0;
    while i < |items|
      invariant 0 <= i <= |items|
      invariant Batch.Collect(outs[..i], host.continueOnFail) == Ok(returnData)
    {
      Batch.CollectStep(outs, host.continueOnFail, i);
      var outcome := ProcessItem(i, items[i], action, host.params(i), lib);
      if outcome.Err? {
        if host.continueOnFail {
          returnData := returnData + [ErrorItem(outcome.message, i)];
          i := i + 1;
          continue;
        }
        Batch.AbortIsFinal(outs, host.continueOnFail, i + 1);
        return Err(outcome.message);
      }
      returnData := returnData + [outcome.value];
      i := i + 1;
    }
    assert outs[..i] == outs;
    return Ok(returnData);
  }

  /** The batch completes exactly when the action was read and either the
      node continues on failure or no item fails; output k is then item k's
      result or, for a failed item, `{json: {error: message}}` without
      binary, and is paired with k. */
  lemma ExecuteOk(items: seq<InputItem>, host: Base64Host, lib: Base64Lib)
    ensures ExecuteSpec(items, host, lib).Ok? <==>
              host.action.Ok? &&
              (host.continueOnFail ||
               forall k :: 0 <= k < |items| ==> ItemOutcome(k, items[k], host.action.value, host.params(k), lib).Ok?)
    ensures ExecuteSpec(items, host, lib).Ok? ==>
              var r := ExecuteSpec(items, host, lib).value;
              |r| == |items| &&
              (forall k :: 0 <= k < |items| ==> r[k].pairedItem == k) &&
              (forall k :: 0 <= k < |items| ==>
                 r[k] == Batch.Slot(ItemOutcome(k, items[k], host.action.value, host.params(k), lib), k))
  {
    if host.action.Ok? {
      var outs := Outcomes(items, host.action.value, host, lib);
      Batch.CollectOk(outs, host.continueOnFail);
      Batch.CollectPairing(outs, host.continueOnFail);
    }
  }

  /** Without continue-on-fail, the batch fails with the first error an
      item throws, and returns no output at all. */
  lemma ExecuteAborts(items: seq<InputItem>, host: Base64Host, lib: Base64Lib, m: string)
    requires host.action.Ok?
    ensures ExecuteSpec(items, host, lib) == Err(m) <==>
              !host.continueOnFail &&
              exists k :: 0 <= k < |items| &&
                ItemOutcome(k, items[k], host.action.value, host.params(k), lib) == Err(m) &&
                forall j :: 0 <= j < k ==> ItemOutcome(j, items[j], host.action.value, host.params(j), lib).Ok?
  {
    var outs := Outcomes(items, host.action.value, host, lib);
    assert ExecuteSpec(items, host, lib) == Batch.Collect(outs, host.continueOnFail);
    Batch.CollectFirstErr(outs, host.continueOnFail, m);
  }

  /** JSON parsing is an option of decoding only, off unless `jsonParse` is
      true, and a parse failure is the item's error. */
  lemma JsonParseOnlyOnDecode(value: string, jsonParse: Option<bool>, lib: Base64Lib)
    ensures NewValue(EncodeAction, value, jsonParse, lib) == Ok(Str(EncodeString(value)))
    ensures jsonParse != Some(true) ==> NewValue(DecodeAction, value, jsonParse, lib) == Ok(Str(DecodeString(value, lib)))
    ensures jsonParse == Some(true) ==> NewValue(DecodeAction, value, jsonParse, lib) == lib.jsonParse(DecodeString(value, lib))
  {
  }

  /** Running the decode action on what the encode action wrote gives back
      the original string. */
  lemma DecodeActionInvertsEncodeAction(value: string, jsonParse: Option<bool>, lib: Base64Lib)
    ensures NewValue(EncodeAction, value, jsonParse, lib).Ok?
    ensures var encoded := NewValue(EncodeAction, value, jsonParse, lib).value;
            encoded.Str? && NewValue(DecodeAction, encoded.s, None, lib) == Ok(Str(value))
  {
    DecodeEncodeString(value, lib);
  }

  /** An action neither branch recognises still emits every item, with
      the output property set to undefined. */
  lemma UnknownActionWritesUndefined(i: nat, item: InputItem, action: string, p: Base64Params, lib: Base64Lib)
    requires action != EncodeAction && action != DecodeAction
    requires p.outputPropertyName.Ok? && p.value.Ok? && p.options.Ok?
    requires !IsGuardedKey(p.outputPropertyName.value)
    ensures var r := ItemOutcome(i, item, action, p, lib);
            r.Ok? && r.value.json[p.outputPropertyName.value] == Undefined
  {
  }
}
