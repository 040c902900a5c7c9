/** The `execute` method of the CryptoJs node: for every input item, run the
    batch's action (AES with the credential passphrase, or RSA with the
    credential private key) on the item's `inputValue` parameter and write
    the result under `outputPropertyName` on a copy of the item. */
module CryptoJsNode {
  import opened Wrappers
  import opened Bytes
  import opened Items
  import Batch

  /** The actions the node implements, by their parameter values. */
  datatype CryptoAction = Encrypt | EncryptPrivate | Sign | Decrypt | DecryptPublic

  function ParseAction(s: string): (a: Option<CryptoAction>)
    ensures a == Some(Encrypt) <==> s == "encrypt"
    ensures a == Some(EncryptPrivate) <==> s == "encryptPrivate"
    ensures a == Some(Sign) <==> s == "sign"
    ensures a == Some(Decrypt) <==> s == "decrypt"
    ensures a == Some(DecryptPublic) <==> s == "decryptPublic"
  {
    if s == "encrypt" then Some(Encrypt)
    else if s == "encryptPrivate" then Some(EncryptPrivate)
    else if s == "sign" then Some(Sign)
    else if s == "decrypt" then Some(Decrypt)
    else if s == "decryptPublic" then Some(DecryptPublic)
    else None
  }

  /** The `passphrase` and `privateKey` fields of the credentials. */
  datatype Credentials = Credentials(passphrase: Option<string>, privateKey: Option<string>)

  /** JavaScript truthiness of an optional string: present and non-empty. */
  predicate Truthy(o: Option<string>) {
    o.Some? && o.value != ""
  }

  /** The per-item parameter reads (`getNodeParameter(name, i)`), each of
      which may throw. */
  datatype CryptoParams = CryptoParams(
    outputPropertyName: Result<string>,
    inputValue: Result<string>,
    inputType: Result<string>,
    encryptOutputType: Result<string>,
    decryptOutputType: Result<string>)

  /** What the workflow host supplies: the action read at index 0, the
      credentials read once before the loop, the parameters of every item
      index, the random salt the AES encryption of item i draws, and the
      node's continue-on-fail setting. */
  datatype CryptoHost = CryptoHost(
    action: Result<string>,
    credentials: Result<Credentials>,
    params: nat -> CryptoParams,
    salt: nat -> seq<Byte>,
    continueOnFail: bool)

  /** The foreign library calls, left uninterpreted:
      - aesEncrypt(message, passphrase, salt): `AES.encrypt(message, passphrase).toString()`;
      - aesDecrypt(ciphertext, passphrase): `AES.decrypt(ciphertext, passphrase).toString(enc.Utf8)`;
      - rsaEncryptPrivate(key, data): `new NodeRSA(key).encryptPrivate(data, 'base64')`;
      - rsaSign(key, data): `new NodeRSA(key).sign(data, 'base64')`;
      - rsaDecryptPublic(key, data): `new NodeRSA(key).decryptPublic(data, 'utf8')`;
      - jsonStringify, jsonParse: `JSON.stringify` of a string, `JSON.parse`. */
  datatype CryptoLib = CryptoLib(
    aesEncrypt: (string, string, seq<Byte>) -> string,
    aesDecrypt: (string, string) -> Result<string>,
    rsaEncryptPrivate: (Option<string>, string) -> Result<string>,
    rsaSign: (Option<string>, string) -> Result<string>,
    rsaDecryptPublic: (Option<string>, string) -> Result<string>,
    jsonStringify: string -> string,
    jsonParse: string -> Result<JsValue>)

  const PassphraseRequired := "Passphrase is required"
  const PrivateKeyRequired := "Private key is required"

  /** The text handed to the primitive: the input value itself for input
      type `string`, its `JSON.stringify` otherwise. */
  function ShapeInput(inputType: string, inputValue: string, lib: CryptoLib): string {
    if inputType == "string" then inputValue else lib.jsonStringify(inputValue)
  }

  /** The decrypted text as the decrypt output type asks for it. */
  function DecryptedValue(outputType: string, decrypted: string, lib: CryptoLib): Result<JsValue> {
    if outputType == "string" then Ok(Str(decrypted))
    else if outputType == "json" then lib.jsonParse(decrypted)
    else Ok(Undefined)
  }

  /** The value the batch's action computes for one item, or the error it
      throws; an unrecognised action leaves it undefined. */
  function NewValue(action: string, creds: Credentials, p: CryptoParams, inputValue: string, salt: seq<Byte>, lib: CryptoLib): (r: Result<JsValue>)
    ensures ParseAction(action).None? ==> r == Ok(Undefined)
    ensures KeyCheck(action, creds).Some? ==> r == Err(KeyCheck(action, creds).value)
  {
    match ParseAction(action)
    case None => Ok(Undefined)
    case Some(Encrypt) => EncryptValue(creds, p, inputValue, salt, lib)
    case Some(EncryptPrivate) => EncryptPrivateValue(creds, p, inputValue, lib)
    case Some(Sign) => SignValue(creds, p, inputValue, lib)
    case Some(Decrypt) => DecryptValue(creds, p, inputValue, lib)
    case Some(DecryptPublic) => DecryptPublicValue(creds, p, inputValue, lib)
  }

  /** AES encryption itself never throws: `encrypt` fails only on the
      passphrase check or a parameter read. */
  function EncryptValue(creds: Credentials, p: CryptoParams, inputValue: string, salt: seq<Byte>, lib: CryptoLib): (r: Result<JsValue>)
    ensures r.Err? <==> !Truthy(creds.passphrase) || p.encryptOutputType.Err? || p.inputType.Err?
    ensures !Truthy(creds.passphrase) ==> r == Err(PassphraseRequired)
  {
    if !Truthy(creds.passphrase) then Err(PassphraseRequired)
    else
      match p.encryptOutputType
      case Err(m) => Err(m)
      case Ok(outputType) =>
        match p.inputType
        case Err(m) => Err(m)
        case Ok(inputType) =>
          var encrypted := lib.aesEncrypt(ShapeInput(inputType, inputValue, lib), creds.passphrase.value, salt);
          if outputType == "base64" then Ok(Str(encrypted)) else Ok(Undefined)
  }

  function EncryptPrivateValue(creds: Credentials, p: CryptoParams, inputValue: string, lib: CryptoLib): Result<JsValue> {
    match p.inputType
    case Err(m) => Err(m)
    case Ok(inputType) =>
      match lib.rsaEncryptPrivate(creds.privateKey, ShapeInput(inputType, inputValue, lib))
      case Err(m) => Err(m)
      case Ok(encrypted) => Ok(Str(encrypted))
  }

  function SignValue(creds: Credentials, p: CryptoParams, inputValue: string, lib: CryptoLib): Result<JsValue> {
    if !Truthy(creds.privateKey) then Err(PrivateKeyRequired)
    else
      match p.inputType
      case Err(m) => Err(m)
      case Ok(inputType) =>
        match lib.rsaSign(creds.privateKey, ShapeInput(inputType, inputValue, lib))
        case Err(m) => Err(m)
        case Ok(signature) => Ok(Str(signature))
  }

  function DecryptValue(creds: Credentials, p: CryptoParams, inputValue: string, lib: CryptoLib): Result<JsValue> {
    if !Truthy(creds.passphrase) then Err(PassphraseRequired)
    else
      match p.decryptOutputType
      case Err(m) => Err(m)
      case Ok(outputType) =>
        match lib.aesDecrypt(inputValue, creds.passphrase.value)
        case Err(m) => Err(m)
        case Ok(decrypted) => DecryptedValue(outputType, decrypted, lib)
  }

  function DecryptPublicValue(creds: Credentials, p: CryptoParams, inputValue: string, lib: CryptoLib): Result<JsValue> {
    if !Truthy(creds.privateKey) then Err(PrivateKeyRequired)
    else
      match p.decryptOutputType
      case Err(m) => Err(m)
      case Ok(outputType) =>
        match lib.rsaDecryptPublic(creds.privateKey, inputValue)
        case Err(m) => Err(m)
        case Ok(decrypted) => DecryptedValue(outputType, decrypted, lib)
  }

  /** The try block for item i: the item it pushes, or the error it throws. */
  function ItemOutcome(i: nat, item: InputItem, action: string, creds: Credentials, p: CryptoParams, salt: seq<Byte>, lib: CryptoLib): (r: Result<OutputItem>)
    ensures r.Ok? <==>
              p.outputPropertyName.Ok? && p.inputValue.Ok? &&
              NewValue(action, creds, p, p.inputValue.value, salt, lib).Ok?
    ensures p.outputPropertyName.Err? ==> r == Err(p.outputPropertyName.message)
    ensures p.outputPropertyName.Ok? && p.inputValue.Err? ==> r == Err(p.inputValue.message)
    ensures p.outputPropertyName.Ok? && p.inputValue.Ok? &&
            NewValue(action, creds, p, p.inputValue.value, salt, lib).Err? ==>
              r == Err(NewValue(action, creds, p, p.inputValue.value, salt, lib).message)
    ensures r.Ok? ==> r.value.pairedItem == i && r.value.binary == item.binary
    ensures r.Ok? && IsGuardedKey(p.outputPropertyName.value) ==> r.value.json == item.json
    ensures r.Ok? ==>
              var key := p.outputPropertyName.value;
              var v := NewValue(action, creds, p, p.inputValue.value, salt, lib);
              v.Ok? &&
              (!IsGuardedKey(key) ==> key in r.value.json && r.value.json[key] == v.value) &&
              (forall k :: k != key ==> (k in r.value.json <==> k in item.json)) &&
              (forall k :: k != key && k in item.json ==> r.value.json[k] == item.json[k])
  {
    match p.outputPropertyName
    case Err(m) => Err(m)
    case Ok(key) =>
      match p.inputValue
      case Err(m) => Err(m)
      case Ok(inputValue) =>
        match NewValue(action, creds, p, inputValue, salt, lib)
        case Err(m) => Err(m)
        case Ok(v) => Ok(MergedItem(item, i, key, v))
  }

  /** The body of the try block, statement by statement: one `if` per
      action, each of which may throw. */
  method ProcessItem(i: nat, item: InputItem, action: string, creds: Credentials, p: CryptoParams, salt: seq<Byte>, lib: CryptoLib)
    returns (r: Result<OutputItem>)
    ensures r == ItemOutcome(i, item, action, creds, p, salt, lib)
  {
    if p.outputPropertyName.Err? {
      return Err(p.outputPropertyName.message);
    }
    var outputPropertyName := p.outputPropertyName.value;
    if p.inputValue.Err? {
      return Err(p.inputValue.message);
    }
    var inputValue := p.inputValue.value;
    var newValue := Undefined;

    if action == "encrypt" {
      if !Truthy(creds.passphrase) {
        return Err(PassphraseRequired);
      }
      if p.encryptOutputType.Err? {
        return Err(p.encryptOutputType.message);
      }
      var encryptOutputType := p.encryptOutputType.value;
      if p.inputType.Err? {
        return Err(p.inputType.message);
      }
      var stringToEncrypt := ShapeInput(p.inputType.value, inputValue, lib);
      var encryptedData := lib.aesEncrypt(stringToEncrypt, creds.passphrase.value, salt);
      if encryptOutputType == "base64" {
        newValue := Str(encryptedData);
      }
    }

    if action == "encryptPrivate" {
      if p.inputType.Err? {
        return Err(p.inputType.message);
      }
      var stringToEncrypt := ShapeInput(p.inputType.value, inputValue, lib);
      var encrypted := lib.rsaEncryptPrivate(creds.privateKey, stringToEncrypt);
      if encrypted.Err? {
        return Err(encrypted.message);
      }
      newValue := Str(encrypted.value);
    }

    if action == "sign" {
      if !Truthy(creds.privateKey) {
        return Err(PrivateKeyRequired);
      }
      if p.inputType.Err? {
        return Err(p.inputType.message);
      }
      var stringToSign := ShapeInput(p.inputType.value, inputValue, lib);
      var signedData := lib.rsaSign(creds.privateKey, stringToSign);
      if signedData.Err? {
        return Err(signedData.message);
      }
      newValue := Str(signedData.value);
    }

    if action == "decrypt" {
      if !Truthy(creds.passphrase) {
        return Err(PassphraseRequired);
      }
      if p.decryptOutputType.Err? {
        return Err(p.decryptOutputType.message);
      }
      var outputType := p.decryptOutputType.value;
      var decryptedString := lib.aesDecrypt(inputValue, creds.passphrase.value);
      if decryptedString.Err? {
        return Err(decryptedString.message);
      }
      if outputType == "string" {
        newValue := Str(decryptedString.value);
      } else if outputType == "json" {
        var parsed := lib.jsonParse(decryptedString.value);
        if parsed.Err? {
          return Err(parsed.message);
        }
        newValue := parsed.value;
      }
    }

    if action == "decryptPublic" {
      if !Truthy(creds.privateKey) {
        return Err(PrivateKeyRequired);
      }
      if p.decryptOutputType.Err? {
        return Err(p.decryptOutputType.message);
      }
      var outputType := p.decryptOutputType.value;
      var decryptedString := lib.rsaDecryptPublic(creds.privateKey, inputValue);
      if decryptedString.Err? {
        return Err(decryptedString.message);
      }
      if outputType == "string" {
        newValue := Str(decryptedString.value);
      } else if outputType == "json" {
        var parsed := lib.jsonParse(decryptedString.value);
        if parsed.Err? {
          return Err(parsed.message);
        }
        newValue := parsed.value;
      }
    }

    // Deep copy (dotted name) and shallow copy give the same value here.
    var newItem := OutputItem(item.json, None, i);
    if item.binary.Some? {
      newItem := newItem.(binary := item.binary);
    }
    newItem := newItem.(json := SetKey(newItem.json, outputPropertyName, newValue));
    return Ok(newItem);
  }

  /** The try-block outcome of every item, in input order. */
  function Outcomes(items: seq<InputItem>, action: string, creds: Credentials, host: CryptoHost, lib: CryptoLib): (outs: seq<Result<OutputItem>>)
    ensures |outs| == |items|
    ensures forall k :: 0 <= k < |items| ==>
              outs[k] == ItemOutcome(k, items[k], action, creds, host.params(k), host.salt(k), lib)
  {
    seq(|items|, k requires 0 <= k < |items| => ItemOutcome(k, items[k], action, creds, host.params(k), host.salt(k), lib))
  }

  /** The whole batch: the action and the credentials are read once, before
      the loop and outside its try block. */
  function ExecuteSpec(items: seq<InputItem>, host: CryptoHost, lib: CryptoLib): Result<seq<OutputItem>> {
    match host.action
    case Err(m) => Err(m)
    case Ok(action) =>
      match host.credentials
      case Err(m) => Err(m)
      case Ok(creds) => Batch.Collect(Outcomes(items, action, creds, host, lib), host.continueOnFail)
  }

  /** The loop of `execute`, pushing into `returnData`. */
  method Execute(items: seq<InputItem>, host: CryptoHost, lib: CryptoLib) returns (r: Result<seq<OutputItem>>)
    ensures r == ExecuteSpec(items, host, lib)
  {
    if host.action.Err? {
      return Err(host.action.message);
    }
    var action := host.action.value;
    if host.credentials.Err? {
      return Err(host.credentials.message);
    }
    var creds := host.credentials.value;
    ghost var outs := Outcomes(items, action, creds, host, lib);
    var returnData: seq<OutputItem> := [];
    var i := 0;
    while i < |items|
      invariant 0 <= i <= |items|
      invariant Batch.Collect(outs[..i], host.continueOnFail) == Ok(returnData)
    {
      Batch.CollectStep(outs, host.continueOnFail, i);
      var outcome := ProcessItem(i, items[i], action, creds, host.params(i), host.salt(i), lib);
      assert outcome == outs[i];
      if outcome.Err? {
        if host.continueOnFail {
          returnData := returnData + [ErrorItem(outcome.message, i)];
          i := i + 1;
          continue;
        }
        Batch.AbortIsFinal(outs, host.continueOnFail, i + 1);
        return Err(outcome.message);
      }
      returnData := returnData + [outcome.value];
      i := i + 1;
    }
    assert outs[..i] == outs;
    return Ok(returnData);
  }

  /** Which key-material check fires for an action, as a table: a
      passphrase for `encrypt` and `decrypt`, a private key for `sign` and
      `decryptPublic`, nothing for `encryptPrivate`. */
  function KeyCheck(action: string, creds: Credentials): Option<string> {
    if (action == "encrypt" || action == "decrypt") && !Truthy(creds.passphrase) then Some(PassphraseRequired)
    else if (action == "sign" || action == "decryptPublic") && !Truthy(creds.privateKey) then Some(PrivateKeyRequired)
    else None
  }

  /** Once the two common parameters are read, a failing key-material check
      is the item's error; `encryptPrivate` hands even an absent or empty
      key to node-rsa; and once the passphrase is there, `encrypt` cannot
      fail except on a parameter read. */
  lemma KeyMaterialChecks(i: nat, item: InputItem, action: string, creds: Credentials, p: CryptoParams, salt: seq<Byte>, lib: CryptoLib)
    requires p.outputPropertyName.Ok? && p.inputValue.Ok?
    ensures KeyCheck(action, creds).Some? ==>
              ItemOutcome(i, item, action, creds, p, salt, lib) == Err(KeyCheck(action, creds).value)
    ensures action == "encryptPrivate" && p.inputType.Ok? ==>
              var shaped := ShapeInput(p.inputType.value, p.inputValue.value, lib);
              (ItemOutcome(i, item, action, creds, p, salt, lib).Ok? <==> lib.rsaEncryptPrivate(creds.privateKey, shaped).Ok?)
    ensures action == "encrypt" && Truthy(creds.passphrase) && p.encryptOutputType.Ok? && p.inputType.Ok? ==>
              ItemOutcome(i, item, action, creds, p, salt, lib).Ok?
  {
  }

  /** The RSA actions never look at the passphrase, the AES actions never
      look at the private key. */
  lemma KeyMaterialIndependence(action: string, passphrase: Option<string>, privateKey: Option<string>,
                                other: Option<string>, p: CryptoParams, inputValue: string, salt: seq<Byte>, lib: CryptoLib)
    ensures action == "encryptPrivate" || action == "sign" || action == "decryptPublic" ==>
              NewValue(action, Credentials(passphrase, privateKey), p, inputValue, salt, lib) ==
              NewValue(action, Credentials(other, privateKey), p, inputValue, salt, lib)
    ensures action == "encrypt" || action == "decrypt" ==>
              NewValue(action, Credentials(passphrase, privateKey), p, inputValue, salt, lib) ==
              NewValue(action, Credentials(passphrase, other), p, inputValue, salt, lib)
  {
  }

  /** `encrypt`, `encryptPrivate` and `sign` hand the primitive the input
      value itself for input type `string`, and its `JSON.stringify`
      otherwise. */
  lemma InputShaping(creds: Credentials, p: CryptoParams, inputValue: string, salt: seq<Byte>, lib: CryptoLib)
    requires p.inputType.Ok?
    ensures var shaped := if p.inputType.value == "string" then inputValue else lib.jsonStringify(inputValue);
            (Truthy(creds.passphrase) && p.encryptOutputType == Ok("base64") ==>
               NewValue("encrypt", creds, p, inputValue, salt, lib) ==
               Ok(Str(lib.aesEncrypt(shaped, creds.passphrase.value, salt)))) &&
            (lib.rsaEncryptPrivate(creds.privateKey, shaped).Ok? ==>
               NewValue("encryptPrivate", creds, p, inputValue, salt, lib) ==
               Ok(Str(lib.rsaEncryptPrivate(creds.privateKey, shaped).value))) &&
            (Truthy(creds.privateKey) && lib.rsaSign(creds.privateKey, shaped).Ok? ==>
               NewValue("sign", creds, p, inputValue, salt, lib) ==
               Ok(Str(lib.rsaSign(creds.privateKey, shaped).value)))
  {
  }

  /** Decrypted text is written as is for output type `string`, parsed for
      `json` (a parse failure is the item's error), and left undefined for
      any other output type; `encrypt` with an output type other than
      `base64` writes undefined and still emits the item. */
  lemma OutputTypes(i: nat, item: InputItem, creds: Credentials, p: CryptoParams, salt: seq<Byte>, lib: CryptoLib, decrypted: string)
    requires p.outputPropertyName.Ok? && p.inputValue.Ok?
    ensures Truthy(creds.passphrase) && p.decryptOutputType.Ok? &&
            lib.aesDecrypt(p.inputValue.value, creds.passphrase.value) == Ok(decrypted) ==>
              NewValue("decrypt", creds, p, p.inputValue.value, salt, lib) ==
              DecryptedValue(p.decryptOutputType.value, decrypted, lib)
    ensures Truthy(creds.privateKey) && p.decryptOutputType.Ok? &&
            lib.rsaDecryptPublic(creds.privateKey, p.inputValue.value) == Ok(decrypted) ==>
              NewValue("decryptPublic", creds, p, p.inputValue.value, salt, lib) ==
              DecryptedValue(p.decryptOutputType.value, decrypted, lib)
    ensures DecryptedValue("string", decrypted, lib) == Ok(Str(decrypted))
    ensures DecryptedValue("json", decrypted, lib) == lib.jsonParse(decrypted)
    ensures p.decryptOutputType.Ok? && p.decryptOutputType.value != "string" && p.decryptOutputType.value != "json" ==>
              DecryptedValue(p.decryptOutputType.value, decrypted, lib) == Ok(Undefined)
    ensures Truthy(creds.passphrase) && p.decryptOutputType.Ok? &&
            p.decryptOutputType.value != "string" && p.decryptOutputType.value != "json" &&
            lib.aesDecrypt(p.inputValue.value, creds.passphrase.value) == Ok(decrypted) ==>
              NewValue("decrypt", creds, p, p.inputValue.value, salt, lib) == Ok(Undefined)
    ensures Truthy(creds.privateKey) && p.decryptOutputType.Ok? &&
            p.decryptOutputType.value != "string" && p.decryptOutputType.value != "json" &&
            lib.rsaDecryptPublic(creds.privateKey, p.inputValue.value) == Ok(decrypted) ==>
              NewValue("decryptPublic", creds, p, p.inputValue.value, salt, lib) == Ok(Undefined)
    ensures Truthy(creds.passphrase) && p.encryptOutputType.Ok? && p.encryptOutputType.value != "base64" &&
            p.inputType.Ok? && !IsGuardedKey(p.outputPropertyName.value) ==>
              var r := ItemOutcome(i, item, "encrypt", creds, p, salt, lib);
              r.Ok? && r.value.json[p.outputPropertyName.value] == Undefined
  {
  }

  /** Past its key check, each action throws on its own failures: a failed
      read of the output or input type, or an error from the primitive
      (node-rsa, or AES decryption whose text is not UTF-8), whose message
      becomes the item's error. */
  lemma PrimitiveErrors(creds: Credentials, p: CryptoParams, inputValue: string, salt: seq<Byte>, lib: CryptoLib)
    ensures Truthy(creds.passphrase) && p.encryptOutputType.Err? ==>
              NewValue("encrypt", creds, p, inputValue, salt, lib) == Err(p.encryptOutputType.message)
    ensures Truthy(creds.passphrase) && p.encryptOutputType.Ok? && p.inputType.Err? ==>
              NewValue("encrypt", creds, p, inputValue, salt, lib) == Err(p.inputType.message)
    ensures p.inputType.Err? ==>
              NewValue("encryptPrivate", creds, p, inputValue, salt, lib) == Err(p.inputType.message)
    ensures p.inputType.Ok? ==>
              var e := lib.rsaEncryptPrivate(creds.privateKey, ShapeInput(p.inputType.value, inputValue, lib));
              e.Err? ==> NewValue("encryptPrivate", creds, p, inputValue, salt, lib) == Err(e.message)
    ensures Truthy(creds.privateKey) && p.inputType.Err? ==>
              NewValue("sign", creds, p, inputValue, salt, lib) == Err(p.inputType.message)
    ensures Truthy(creds.privateKey) && p.inputType.Ok? ==>
              var e := lib.rsaSign(creds.privateKey, ShapeInput(p.inputType.value, inputValue, lib));
              e.Err? ==> NewValue("sign", creds, p, inputValue, salt, lib) == Err(e.message)
    ensures Truthy(creds.passphrase) && p.decryptOutputType.Err? ==>
              NewValue("decrypt", creds, p, inputValue, salt, lib) == Err(p.decryptOutputType.message)
    ensures Truthy(creds.passphrase) && p.decryptOutputType.Ok? ==>
              var e := lib.aesDecrypt(inputValue, creds.passphrase.value);
              e.Err? ==> NewValue("decrypt", creds, p, inputValue, salt, lib) == Err(e.message)
    ensures Truthy(creds.privateKey) && p.decryptOutputType.Err? ==>
              NewValue("decryptPublic", creds, p, inputValue, salt, lib) == Err(p.decryptOutputType.message)
    ensures Truthy(creds.privateKey) && p.decryptOutputType.Ok? ==>
              var e := lib.rsaDecryptPublic(creds.privateKey, inputValue);
              e.Err? ==> NewValue("decryptPublic", creds, p, inputValue, salt, lib) == Err(e.message)
  {
  }

  /** The batch completes exactly when the action and the credentials were
      read and either the node continues on failure or no item fails;
      output k is then item k's result or, for a failed item,
      `{json: {error: message}}` without binary, and is paired with k. */
  lemma ExecuteOk(items: seq<InputItem>, host: CryptoHost, lib: CryptoLib)
    ensures ExecuteSpec(items, host, lib).Ok? <==>
              host.action.Ok? && host.credentials.Ok? &&
              (host.continueOnFail ||
               forall k :: 0 <= k < |items| ==>
                 ItemOutcome(k, items[k], host.action.value, host.credentials.value, host.params(k), host.salt(k), lib).Ok?)
    ensures ExecuteSpec(items, host, lib).Ok? ==>
              var r := ExecuteSpec(items, host, lib).value;
              |r| == |items| &&
              (forall k :: 0 <= k < |items| ==> r[k].pairedItem == k) &&
              (forall k :: 0 <= k < |items| ==>
                 r[k] == Batch.Slot(ItemOutcome(k, items[k], host.action.value, host.credentials.value, host.params(k), host.salt(k), lib), k))
  {
    if host.action.Ok? && host.credentials.Ok? {
      var outs := Outcomes(items, host.action.value, host.credentials.value, host, lib);
      Batch.CollectOk(outs, host.continueOnFail);
      Batch.CollectPairing(outs, host.continueOnFail);
    }
  }

  /** Without continue-on-fail, the batch fails with the first error an
      item throws, and returns no output at all. */
  lemma ExecuteAborts(items: seq<InputItem>, host: CryptoHost, lib: CryptoLib, m: string)
    requires host.action.Ok? && host.credentials.Ok?
    ensures ExecuteSpec(items, host, lib) == Err(m) <==>
              !host.continueOnFail &&
              exists k :: 0 <= k < |items| &&
                ItemOutcome(k, items[k], host.action.value, host.credentials.value, host.params(k), host.salt(k), lib) == Err(m) &&
                forall j :: 0 <= j < k ==>
                  ItemOutcome(j, items[j], host.action.value, host.credentials.value, host.params(j), host.salt(j), lib).Ok?
  {
    var outs := Outcomes(items, host.action.value, host.credentials.value, host, lib);
    assert ExecuteSpec(items, host, lib) == Batch.Collect(outs, host.continueOnFail);
    Batch.CollectFirstErr(outs, host.continueOnFail, m);
  }

  /** The credentials are read once, outside the per-item try block: a
      failure to read them fails the whole batch, even under
      continue-on-fail and even with no items. */
  lemma CredentialFailureAbortsBatch(items: seq<InputItem>, host: CryptoHost, lib: CryptoLib)
    requires host.action.Ok? && host.credentials.Err?
    ensures ExecuteSpec(items, host, lib) == Err(host.credentials.message)
  {
  }

  /** The action and the key material are the batch's, so a failing
      key-material check fails every item alike: under continue-on-fail the
      output is one error item per input, otherwise the batch fails. */
  lemma KeyCheckFailsEveryItem(items: seq<InputItem>, host: CryptoHost, lib: CryptoLib)
    requires host.action.Ok? && host.credentials.Ok?
    requires KeyCheck(host.action.value, host.credentials.value).Some?
    requires forall k :: 0 <= k < |items| ==> host.params(k).outputPropertyName.Ok? && host.params(k).inputValue.Ok?
    ensures var m := KeyCheck(host.action.value, host.credentials.value).value;
            (host.continueOnFail ==>
               ExecuteSpec(items, host, lib).Ok? &&
               |ExecuteSpec(items, host, lib).value| == |items| &&
               forall k :: 0 <= k < |items| ==> ExecuteSpec(items, host, lib).value[k] == ErrorItem(m, k)) &&
            (!host.continueOnFail && |items| > 0 ==> ExecuteSpec(items, host, lib) == Err(m))
  {
    var action, creds := host.action.value, host.credentials.value;
    var m := KeyCheck(action, creds).value;
    forall k | 0 <= k < |items|
      ensures ItemOutcome(k, items[k], action, creds, host.params(k), host.salt(k), lib) == Err(m)
    {
      KeyMaterialChecks(k, items[k], action, creds, host.params(k), host.salt(k), lib);
    }
    ExecuteOk(items, host, lib);
    if !host.continueOnFail && |items| > 0 {
      ExecuteAborts(items, host, lib, m);
      assert ItemOutcome(0, items[0], action, creds, host.params(0), host.salt(0), lib) == Err(m);
    }
  }

  /** An action none of the five branches recognises reads no further
      parameter, checks no key and still emits every item, with the output
      property set to undefined. */
  lemma UnknownActionWritesUndefined(i: nat, item: InputItem, action: string, creds: Credentials, p: CryptoParams, salt: seq<Byte>, lib: CryptoLib)
    requires ParseAction(action).None?
    requires p.outputPropertyName.Ok? && p.inputValue.Ok?
    requires !IsGuardedKey(p.outputPropertyName.value)
    ensures var r := ItemOutcome(i, item, action, creds, p, salt, lib);
            r.Ok? && r.value.json[p.outputPropertyName.value] == Undefined
  {
  }
}
