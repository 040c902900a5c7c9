# Base64 and CryptoJs nodes

This project models the `execute` methods of two workflow nodes. Both nodes
take a batch of input items. For every item they read the node's parameters
and compute one new value from a string parameter. They then write that
value under a configurable output property on a copy of the item, and emit
the copy paired with the item's index.

- **Base64** (`base64Encode` / `base64Decode`) turns the string into its
  UTF-8 bytes and encodes them in base64 (section 4 of RFC 4648), or does
  the reverse. On request it parses the decoded text as JSON.
- **CryptoJs** runs one of five actions:
  - `encrypt` and `decrypt` use AES with the credential's passphrase;
  - `encryptPrivate`, `sign` and `decryptPublic` use RSA with the
    credential's private key.

Both nodes handle a failing item the same way. With continue-on-fail on,
the item is replaced by `{json: {error: message}}`. Otherwise the first
error aborts the whole batch.

The model is split into these modules:

- `Wrappers`, `Bytes` — `Option`, `Result` and the byte type.
- `Items` — JSON values and items, plus how the output property is written
  (lodash `set` with a one-element path).
- `Batch` — the per-item try/catch loop as a specification function
  (`Collect`), with its lemmas.
- `Utf8` — strict UTF-8 encoding and decoding, with both round trips.
- `Base64Codec` — the base64 alphabet, padding and both round trips.
- `Base64Node`, `CryptoJsNode` — each node's `execute` as an imperative
  method (`Execute`, with `ProcessItem` for one iteration of the loop). Each
  is proved equal to a specification function (`ExecuteSpec`,
  `ItemOutcome`), and lemmas state what the nodes promise.

Everything the nodes get from the host is a parameter of the model:
- the input items;
- the parameter values, each of which may fail to be read;
- the credentials;
- the continue-on-fail flag.

The libraries are parameters too, as opaque functions: AES, node-rsa,
`JSON.parse`, `JSON.stringify`, and Node's lenient handling of malformed
base64 and UTF-8. `AES.encrypt` draws a random salt, so the model takes the
salt for item i as a parameter.

The output property name is written as one literal key, even when it
contains a dot. For a dotted name the code deep-copies the item's json, with
the comment "Uses dot notation so copy all data"
(nodes/Base64/Base64.node.ts:124, nodes/CryptoJs/CryptoJs.node.ts:266), as
though the name were a nested path. The write itself, however, passes
`['json', outputPropertyName]` as an array path to lodash `set`, and lodash
uses each array element as one key. The model follows the write, and
`Items.DottedNameIsLiteralKey` shows the outcome.

lodash 4.17 also refuses to write the keys `__proto__`, `constructor` and
`prototype`, so for those names the emitted item (still a new item paired
with its index) carries the input's json unchanged (`Items.IsGuardedKey`).

## Model

| member | source | states |
|---|---|---|
| Items.SetKey | nodes/Base64/Base64.node.ts:145 | writing the output property sets exactly that key to the new value; every other key keeps its value; for `__proto__`, `constructor` and `prototype` nothing changes |
| Items.MergedItem | nodes/Base64/Base64.node.ts:122-145 | the emitted item is the input item's json with the output key set, the input's binary carried over unchanged, and the index i as pairedItem; for a key lodash refuses the json is the input's unchanged |
| Items.ErrorItem | nodes/Base64/Base64.node.ts:149-157 | the item pushed by the catch block: `{json: {error: message}}`, no binary, paired with i; `Batch.CollectOk` places it at the failed item's position |
| Items.DottedNameIsLiteralKey | nodes/CryptoJs/CryptoJs.node.ts:287 | a dotted output name such as `a.b` becomes one new top-level key; the nested object `a` keeps its fields |
| Batch.Collect | nodes/Base64/Base64.node.ts:102-162 | the try/catch loop over the item outcomes; `Batch.CollectOk`, `Batch.CollectErr`, `Batch.AbortIsFinal` and `Batch.CollectPairing` state what it promises |
| Batch.CollectOk | nodes/Base64/Base64.node.ts:102-162 | the loop completes exactly when continue-on-fail is on or no item fails; it then emits one output per input, in order: the item, or the error item for a failure |
| Batch.CollectErr | nodes/Base64/Base64.node.ts:148-161 | the loop fails with message m exactly when continue-on-fail is off and the first failing item fails with m |
| Batch.AbortIsFinal | nodes/Base64/Base64.node.ts:160 | once the loop has thrown, later items change nothing |
| Batch.CollectPairing | nodes/Base64/Base64.node.ts:127-156 | every output, item or error, is paired with the index of its input |
| Utf8.EncodeChar | nodes/Base64/Base64.node.ts:112 | one character encodes to 1 to 4 bytes, a lead byte below 0x80 exactly for one byte, then continuation bytes |
| Utf8.Encode | nodes/Base64/Base64.node.ts:112 | a string of n characters encodes to between n and 4n bytes |
| Utf8.DecodeChar | nodes/Base64/Base64.node.ts:116 | decoding one character consumes at least 1 and at most all of the available bytes |
| Utf8.Decode | nodes/Base64/Base64.node.ts:116 | strict UTF-8 decoding of the decoded bytes; a decoded string has no more characters than there are bytes; `Utf8.DecodeEncode` and `Utf8.EncodeDecode` make it the inverse of `Utf8.Encode` |
| Utf8.DecodeCharOfEncodeChar | nodes/Base64/Base64.node.ts:112-116 | the decoder reads back every encoded character and its length, whatever follows |
| Utf8.DecodeEncode | nodes/Base64/Base64.node.ts:112-116 | decoding the UTF-8 encoding of a string gives the string |
| Utf8.EncodeCharOfDecodeChar | nodes/Base64/Base64.node.ts:112-116 | a decoded character re-encodes to exactly the bytes it was decoded from |
| Utf8.EncodeDecode | nodes/Base64/Base64.node.ts:112-116 | well-formed UTF-8 re-encodes to itself after decoding |
| Base64Codec.CharOf | nodes/Base64/Base64.node.ts:112 | every 6-bit value maps into the base64 alphabet |
| Base64Codec.ValueOf | nodes/Base64/Base64.node.ts:116 | every alphabet character has a 6-bit value that maps back to it |
| Base64Codec.ValueOfCharOf | nodes/Base64/Base64.node.ts:112-116 | alphabet lookup and reverse lookup are inverse |
| Base64Codec.JoinSplit | nodes/Base64/Base64.node.ts:112-116 | three bytes split into four 6-bit values rejoin to the same bytes |
| Base64Codec.SplitJoin | nodes/Base64/Base64.node.ts:112-116 | four 6-bit values joined into three bytes split back into the same values |
| Base64Codec.ToSextets | nodes/Base64/Base64.node.ts:112 | n bytes give 4 values per full group of 3, plus 2 or 3 for a trailing 1 or 2 bytes |
| Base64Codec.FromToSextets | nodes/Base64/Base64.node.ts:112-116 | the 6-bit values of a byte string decode back to the byte string |
| Base64Codec.ToFromSextets | nodes/Base64/Base64.node.ts:112-116 | values that decode (canonical zero bits) are the values of their decoding |
| Base64Codec.ValuesOfChars | nodes/Base64/Base64.node.ts:112-116 | characters produced from values are in the alphabet and read back as those values |
| Base64Codec.CharsOfValues | nodes/Base64/Base64.node.ts:112-116 | alphabet text read as values and written back is unchanged |
| Base64Codec.EncodedLength | nodes/Base64/Base64.node.ts:112 | padding brings the encoding to 4 * ceil(n / 3) characters; there is no padding exactly when 3 divides n, and one `=` only for n mod 3 = 2 |
| Base64Codec.Encode | nodes/Base64/Base64.node.ts:112 | `toString('base64')` on a byte buffer; its shape is stated by `Base64Codec.EncodeShape`, its inverse by `Base64Codec.DecodeEncode`, and its table and bit order by the test vectors below |
| Base64Codec.Decode | nodes/Base64/Base64.node.ts:116 | `Buffer.from(s, 'base64')` on canonical input; `Base64Codec.DecodeEncode` and `Base64Codec.EncodeDecode` make it the exact inverse of `Base64Codec.Encode` |
| Base64Codec.EncodeShape | nodes/Base64/Base64.node.ts:112 | the encoding of n bytes has 4 * ceil(n / 3) characters; `=` appears exactly in the final padding positions; every other character is in the alphabet |
| Base64Codec.TrailingPadOfEncoding | nodes/Base64/Base64.node.ts:112-116 | the decoder counts exactly the padding the encoder appended |
| Base64Codec.DecodeEncode | nodes/Base64/Base64.node.ts:112-116 | decoding the encoding of any byte string gives the byte string |
| Base64Codec.EncodeDecode | nodes/Base64/Base64.node.ts:112-116 | canonical base64 text that decodes re-encodes to itself |
| Base64Codec.PadFromLength | nodes/Base64/Base64.node.ts:112-116 | the number of padding characters is determined by the number of bytes |
| Base64Codec.TrailingPadIsPadding | nodes/Base64/Base64.node.ts:116 | the counted trailing padding is a suffix of `=` characters |
| Base64Codec.EncodeGroup | nodes/Base64/Base64.node.ts:112 | three bytes encode to the four alphabet characters of their 6-bit groups, with no padding |
| Base64Codec.EncodeFinalByte | nodes/Base64/Base64.node.ts:112 | a final single byte encodes to two characters, the second with four zero bits, then `==` |
| Base64Codec.EncodeFinalTwoBytes | nodes/Base64/Base64.node.ts:112 | two final bytes encode to three characters, the third with two zero bits, then `=` |
| Base64Codec.EncodeLeadingGroup | nodes/Base64/Base64.node.ts:112 | the encoding of three leading bytes followed by the rest is their own encoding followed by the rest's |
| Base64Codec.TestVectorCharacters | nodes/Base64/Base64.node.ts:112 | the alphabet entries 4, 5, 24, 25, 32, 38, 47, 50, 60 and 61 are `E F Y Z g m v y 8 9` (Table 1 of RFC 4648) |
| Base64Codec.TestVectorEmpty | nodes/Base64/Base64.node.ts:112 | "" encodes to "" (section 10 of RFC 4648) |
| Base64Codec.TestVectorF | nodes/Base64/Base64.node.ts:112 | "f" encodes to "Zg==" (section 10 of RFC 4648) |
| Base64Codec.TestVectorFo | nodes/Base64/Base64.node.ts:112 | "fo" encodes to "Zm8=" (section 10 of RFC 4648) |
| Base64Codec.TestVectorFoo | nodes/Base64/Base64.node.ts:112 | "foo" encodes to "Zm9v" (section 10 of RFC 4648) |
| Base64Codec.TestVectorFoob | nodes/Base64/Base64.node.ts:112 | "foob" encodes to "Zm9vYg==" (section 10 of RFC 4648) |
| Base64Codec.TestVectorFooba | nodes/Base64/Base64.node.ts:112 | "fooba" encodes to "Zm9vYmE=" (section 10 of RFC 4648) |
| Base64Codec.TestVectorFoobar | nodes/Base64/Base64.node.ts:112 | "foobar" encodes to "Zm9vYmFy" (section 10 of RFC 4648) |
| Base64Node.DecodeEncodeString | nodes/Base64/Base64.node.ts:111-116 | `Buffer.from(Buffer.from(s).toString('base64'), 'base64').toString()` is s, whatever Node does on malformed input |
| Base64Node.EncodeStringShape | nodes/Base64/Base64.node.ts:112 | the encoded string has 4 * ceil(n / 3) characters for n UTF-8 bytes, alphabet characters, and `=` only as final padding |
| Base64Node.EncodeString | nodes/Base64/Base64.node.ts:112 | `Buffer.from(value).toString('base64')`: base64 of the UTF-8 bytes; `Base64Node.EncodeStringShape` and `Base64Node.DecodeEncodeString` state its shape and inverse |
| Base64Node.DecodeString | nodes/Base64/Base64.node.ts:116 | `Buffer.from(value, 'base64').toString()`: exact on canonical input, Node's lenient fallbacks otherwise; `Base64Node.DecodeEncodeString` makes it the inverse of `Base64Node.EncodeString` |
| Base64Node.NewValue | nodes/Base64/Base64.node.ts:108-120 | the encode action writes the encoded string; only the decode action with `jsonParse` true can throw, and then with the outcome of `JSON.parse` on the decoded text |
| Base64Node.ItemOutcome | nodes/Base64/Base64.node.ts:104-147 | an item is emitted exactly when its three parameters are read and the new value computes; otherwise the item fails with the message of the first step that threw, in source order; an emitted item is paired with its index, carries the input binary, holds the new value under its output key (nothing changes for a refused key) and keeps every other key |
| Base64Node.ProcessItem | nodes/Base64/Base64.node.ts:104-147 | the try block for one item, step by step, yields the item outcome |
| Base64Node.ExecuteSpec | nodes/Base64/Base64.node.ts:94-164 | the batch: the action read, then the loop over every item; `Base64Node.ExecuteOk` and `Base64Node.ExecuteAborts` state what it promises |
| Base64Node.Execute | nodes/Base64/Base64.node.ts:94-164 | the loop over the items gives the result of the batch specification; the action is read once, at index 0, outside the try |
| Base64Node.ExecuteOk | nodes/Base64/Base64.node.ts:94-164 | the batch completes exactly when the action was read and continue-on-fail is on or no item fails; output k is item k's result or its error item, paired with k |
| Base64Node.ExecuteAborts | nodes/Base64/Base64.node.ts:148-161 | with the action read, the batch fails with m exactly when continue-on-fail is off and the first failing item throws m |
| Base64Node.JsonParseOnlyOnDecode | nodes/Base64/Base64.node.ts:111-120 | encoding never parses; decoding parses the decoded text exactly when `jsonParse` is true, and a parse failure is the item's error |
| Base64Node.DecodeActionInvertsEncodeAction | nodes/Base64/Base64.node.ts:111-120 | the decode action applied to what the encode action wrote gives back the original string |
| Base64Node.UnknownActionWritesUndefined | nodes/Base64/Base64.node.ts:108-145 | with any other action the item is still emitted, its output property undefined |
| CryptoJsNode.ParseAction | nodes/CryptoJs/CryptoJs.node.ts:200-250 | each of the five action names selects its own branch, and only that name does |
| CryptoJsNode.KeyCheck | nodes/CryptoJs/CryptoJs.node.ts:200-253 | which truthiness check fires for an action, as a table; `CryptoJsNode.KeyMaterialChecks` ties it to the item outcome |
| CryptoJsNode.ShapeInput | nodes/CryptoJs/CryptoJs.node.ts:206 | the text handed to the primitive; `CryptoJsNode.InputShaping` states it for encrypt, encryptPrivate and sign |
| CryptoJsNode.DecryptedValue | nodes/CryptoJs/CryptoJs.node.ts:243-247 | the decrypted text as the output type asks; `CryptoJsNode.OutputTypes` states the three cases: as is for `string`, parsed for `json`, undefined for any other type |
| CryptoJsNode.NewValue | nodes/CryptoJs/CryptoJs.node.ts:197-262 | an unrecognised action writes undefined and never throws; a failing key check throws its message |
| CryptoJsNode.EncryptValue | nodes/CryptoJs/CryptoJs.node.ts:200-211 | `encrypt` throws exactly on a missing passphrase or a failed parameter read, with "Passphrase is required" for the former; AES itself never throws |
| CryptoJsNode.EncryptPrivateValue | nodes/CryptoJs/CryptoJs.node.ts:213-221 | `encryptPrivate` with no key check; `CryptoJsNode.KeyMaterialChecks` and `CryptoJsNode.InputShaping` state its success path, `CryptoJsNode.PrimitiveErrors` its failures: a failed `inputType` read or a node-rsa error, with that message |
| CryptoJsNode.SignValue | nodes/CryptoJs/CryptoJs.node.ts:223-233 | `sign` after the private-key check; `CryptoJsNode.KeyMaterialChecks` and `CryptoJsNode.InputShaping` state its success path, `CryptoJsNode.PrimitiveErrors` its failures: a failed `inputType` read or a throwing `key.sign`, with that message |
| CryptoJsNode.DecryptValue | nodes/CryptoJs/CryptoJs.node.ts:235-248 | `decrypt` after the passphrase check; `CryptoJsNode.KeyMaterialChecks` and `CryptoJsNode.OutputTypes` state its success path, `CryptoJsNode.PrimitiveErrors` its failures: a failed `decryptOutputType` read or a throwing AES decryption to UTF-8, with that message |
| CryptoJsNode.DecryptPublicValue | nodes/CryptoJs/CryptoJs.node.ts:250-262 | `decryptPublic` after the private-key check; `CryptoJsNode.KeyMaterialChecks` and `CryptoJsNode.OutputTypes` state its success path, `CryptoJsNode.PrimitiveErrors` its failures: a failed `decryptOutputType` read or a throwing node-rsa `decryptPublic`, with that message |
| CryptoJsNode.ItemOutcome | nodes/CryptoJs/CryptoJs.node.ts:193-289 | an item is emitted exactly when its output name and input value are read and the action's value computes; otherwise the item fails with the message of the first step that threw, in source order; an emitted item is paired with its index, carries the input binary, holds the new value under its output key (nothing changes for a refused key) and keeps every other key |
| CryptoJsNode.ProcessItem | nodes/CryptoJs/CryptoJs.node.ts:193-289 | the try block for one item, with its five sequential action branches, yields the item outcome |
| CryptoJsNode.ExecuteSpec | nodes/CryptoJs/CryptoJs.node.ts:182-306 | the batch: the action and credentials read, then the loop over every item; `CryptoJsNode.ExecuteOk`, `CryptoJsNode.ExecuteAborts` and `CryptoJsNode.CredentialFailureAbortsBatch` state what it promises |
| CryptoJsNode.Execute | nodes/CryptoJs/CryptoJs.node.ts:182-306 | the loop over the items gives the result of the batch specification; the action and the credentials are read once, outside the try |
| CryptoJsNode.KeyMaterialChecks | nodes/CryptoJs/CryptoJs.node.ts:200-262 | encrypt and decrypt without a truthy passphrase fail with "Passphrase is required"; sign and decryptPublic without a truthy private key fail with "Private key is required"; encryptPrivate hands even a missing key to node-rsa; encrypt with a passphrase cannot fail once its parameters are read |
| CryptoJsNode.KeyMaterialIndependence | nodes/CryptoJs/CryptoJs.node.ts:200-262 | the RSA actions do not depend on the passphrase, and the AES actions do not depend on the private key |
| CryptoJsNode.InputShaping | nodes/CryptoJs/CryptoJs.node.ts:205-231 | encrypt, encryptPrivate and sign get the input value itself for input type `string`, and its `JSON.stringify` otherwise; encrypt with `base64` output writes the AES ciphertext string |
| CryptoJsNode.OutputTypes | nodes/CryptoJs/CryptoJs.node.ts:208-261 | decrypted text, from `decrypt` or `decryptPublic`, is written as is for `string`, parsed for `json` (a parse failure is the item's error), and left undefined for any other output type; encrypt with an output type other than `base64` writes undefined and still emits the item |
| CryptoJsNode.PrimitiveErrors | nodes/CryptoJs/CryptoJs.node.ts:200-262 | past its key check each action throws on a failed read of its output or input type, and on an error from node-rsa or from AES decryption to UTF-8, with that message; `encrypt` throws only on its two reads |
| CryptoJsNode.ExecuteOk | nodes/CryptoJs/CryptoJs.node.ts:182-306 | the batch completes exactly when the action and the credentials were read and continue-on-fail is on or no item fails; output k is item k's result or its error item, paired with k |
| CryptoJsNode.ExecuteAborts | nodes/CryptoJs/CryptoJs.node.ts:290-303 | with the action and credentials read, the batch fails with m exactly when continue-on-fail is off and the first failing item throws m |
| CryptoJsNode.CredentialFailureAbortsBatch | nodes/CryptoJs/CryptoJs.node.ts:187-189 | a failure to read the credentials fails the batch, even under continue-on-fail and with no items |
| CryptoJsNode.KeyCheckFailsEveryItem | nodes/CryptoJs/CryptoJs.node.ts:200-253 | a failing key check fails every item alike: under continue-on-fail every output is the error item for that message, otherwise a non-empty batch fails with it |
| CryptoJsNode.UnknownActionWritesUndefined | nodes/CryptoJs/CryptoJs.node.ts:197-287 | with any other action no key is checked and the item is still emitted, its output property undefined |

## Left out

- AES, node-rsa, `JSON.parse` and `JSON.stringify` are opaque functions.
  The model proves no round trip or security property of them. Because of
  this, a decrypt with a wrong passphrase may yield any string, as CryptoJS
  can.
- The random salt of `AES.encrypt` is a parameter, one per item.
- Node's `Buffer` is lenient with malformed base64 (it skips characters
  outside the alphabet and accepts missing padding) and with malformed UTF-8
  (it substitutes U+FFFD). The model decodes canonical input exactly and
  treats every other input as an opaque function.
- Strings with lone surrogates have no counterpart. Dafny strings hold only
  Unicode scalar values.
- Asynchrony, the host API itself and the node's description and UI
  metadata are left out. The credentials type file is not part of this
  model.
- The deep copy for dotted names versus the shallow copy otherwise is left
  out. Values are immutable here, so sharing between input and output cannot
  be observed.
- Key order in JSON objects is left out: objects are maps.
- JavaScript numbers are modelled as reals, not IEEE doubles.
- Parameter values of a type other than string are left out.
- The input item's own `pairedItem` and other item fields are left out.
- Base64Node.NewValue reads `jsonParse` as an optional boolean. A truthy
  non-boolean option value is not modelled.
