# nodemailer-openpgp in Dafny

This is a verified model of the message transform in nodemailer-openpgp.
The transform is an `Encrypter` stream and an `openpgpEncrypt` plugin hook that installs it on outgoing mail.

- The stream buffers the raw message chunk by chunk.
- At the end of the input it either passes the message through unchanged or replaces it with an OpenPGP/MIME `multipart/encrypted` message.
- To build the encrypted message it does four things:
  - It splits the message at the first blank line.
  - It folds the header block into logical headers.
  - It routes `Content-Type`/`Content-Transfer-Encoding` headers into the encrypted payload and keeps the others in the outer envelope.
  - It wraps the ciphertext in the two-part body of section 4 of RFC 3156, with `nm_` + hex boundaries (delimiters as in section 5.1.1 of RFC 2046).

The OpenPGP library is a parameter: key reading, key unlocking and encryption are three total functions that may fail. The 14 random bytes of the boundary are a parameter too.

Modules:

- `Wrappers`: `Option`.
- `Text`: JavaScript `String.prototype.split` with a non-empty separator, `Array.prototype.join`, the ECMAScript `\s` class and ASCII case folding. Laws: `Join(Split(s)) == s`, and no split part contains the separator.
- `Hex`: hex encoding of bytes (`Buffer.toString('hex')`) and the `nm_` boundary, with a decoder proving the encoding loses nothing.
- `Headers`: the header/body split; header folding; the classification loop as a method, one step per `forEach` callback; header serialisation.
  - Folding is specified twice, once by the function `FoldLines` and once by the independent characterisation `WellFolded`. The two are proved equivalent.
  - Classification is proved to be an order-preserving partition that loses and duplicates no physical line.
- `Mime`: the protection header lines appended to the envelope, the plaintext handed to encryption, the `multipart/encrypted` body and the final message.
- `Encryption`: the library oracles; `Promise.all` over key reading; signing-key selection; the outcome of `_flush`; the `Encrypter` class (chunk buffer, `Transform`, `Flush`); and the plugin guard.

## Model

| member | source | states |
|---|---|---|
| `Text.IndexOf` | lib/nodemailer-openpgp.js:65 | a found index is an occurrence of the separator with none earlier; no index means the text holds no occurrence |
| `Text.Split` | lib/nodemailer-openpgp.js:65 | splitting with a non-empty separator yields at least one part |
| `Text.SplitFirstPart` | lib/nodemailer-openpgp.js:65-66 | a split has one part exactly when the separator does not occur, and then that part is the text; otherwise the first part is the text before the first occurrence and the others are the split of the text after it |
| `Text.JoinSplit` | lib/nodemailer-openpgp.js:65-66 | joining the split parts with the same separator gives back the text exactly |
| `Text.SplitPartsFree` | lib/nodemailer-openpgp.js:71 | no part produced by the split contains the separator |
| `Text.JoinAppend` | lib/nodemailer-openpgp.js:88 | joining two non-empty lists back to back equals joining each and putting one separator between them |
| `Text.IgnoreCaseMatch` | lib/nodemailer-openpgp.js:74 | for a pattern without capitals, a case-insensitive prefix match holds if and only if the line is long enough and each of its characters is the pattern's character or, for a lower-case letter, its ASCII capital |
| `Hex.HexDigit` | lib/nodemailer-openpgp.js:70 | a nibble below 10 becomes a decimal digit, and one of 10 to 15 becomes a lower-case `a`-`f` |
| `Hex.DigitValue` | lib/nodemailer-openpgp.js:70 | every lower-case hex digit is the digit of exactly one nibble |
| `Hex.Encode` | lib/nodemailer-openpgp.js:70 | the hex text has two lower-case hex digits per byte |
| `Hex.DecodeEncode` | lib/nodemailer-openpgp.js:70 | decoding the hex text gives back the bytes, so the encoding is lossless |
| `Hex.Boundary` | lib/nodemailer-openpgp.js:70 | the boundary is `nm_` followed only by hex digits, two per random byte |
| `Hex.BoundaryRoundTrip` | lib/nodemailer-openpgp.js:70 | a boundary drawn from 14 bytes has length 31 and determines those bytes |
| `Hex.BoundaryInjective` | lib/nodemailer-openpgp.js:70 | different random bytes give different boundaries |
| `Headers.SplitMessage` | lib/nodemailer-openpgp.js:65-66 | with no blank line the header is the whole text and the body is empty; otherwise the header ends at the first `\r\n\r\n`, the body is everything after it, `header + "\r\n\r\n" + body` is the text, and the header holds no blank line |
| `Headers.FoldLines` | lib/nodemailer-openpgp.js:71-82 | folding never yields more logical headers than lines, yields one for any line, and yields no empty header |
| `Headers.FlattenAppend` | lib/nodemailer-openpgp.js:80 | the physical lines of two header lists are those of the first followed by those of the second |
| `Headers.FoldLinesWellFolded` | lib/nodemailer-openpgp.js:71-82 | the folded headers hold exactly the physical lines in order; each later header starts with a non-whitespace line; every continuation line starts with whitespace |
| `Headers.WellFoldedUnique` | lib/nodemailer-openpgp.js:71-82 | only one grouping of the lines has that shape, and it is the folding |
| `Headers.FoldLinesCharacterised` | lib/nodemailer-openpgp.js:71-82 | a grouping is the folding of the lines if and only if it keeps the lines in order and has the folding shape |
| `Headers.Select` | lib/nodemailer-openpgp.js:74-78 | a selection is never longer than the list it filters |
| `Headers.SelectMembers` | lib/nodemailer-openpgp.js:74-78 | each selected header comes from the input and is a content header exactly when content headers were asked for |
| `Headers.SelectAppend` | lib/nodemailer-openpgp.js:74-78 | selecting from two lists back to back equals selecting from each in turn, so relative order is kept |
| `Headers.SelectPartition` | lib/nodemailer-openpgp.js:74-78 | body headers and envelope headers together are exactly the logical headers, none lost or duplicated |
| `Headers.SelectKeepsLines` | lib/nodemailer-openpgp.js:71-82 | the physical lines of the two lists together are exactly the physical header lines |
| `Headers.SelectKeepsFolding` | lib/nodemailer-openpgp.js:71-82 | either list, as selected, still has the folding shape |
| `Headers.HeaderLines` | lib/nodemailer-openpgp.js:71 | a header block always has at least one physical line |
| `Headers.SerializeFlatten` | lib/nodemailer-openpgp.js:88-89 | joining each header's lines and then the headers with `\r\n` equals joining all physical lines with `\r\n` |
| `Headers.HeaderRoundTrip` | lib/nodemailer-openpgp.js:71-89 | folding the header block and serialising the result gives back the header block exactly |
| `Headers.ClassifyLine` | lib/nodemailer-openpgp.js:72-81 | one callback step turns the lists of the first i lines into the envelope and body selections of the folding of the first i+1 lines |
| `Headers.ClassifyHeaders` | lib/nodemailer-openpgp.js:71-82 | the loop leaves in `headers` the non-content logical headers and in `bodyHeaders` the content headers, each in order |
| `Mime.BoundaryParameter` | lib/nodemailer-openpgp.js:83 | the boundary parameter line starts with whitespace, so it folds into the `Content-Type` line |
| `Mime.EnvelopeLayout` | lib/nodemailer-openpgp.js:83-88 | the envelope is the original non-content headers, then a line break when there are any, then exactly the four appended lines joined with `\r\n` |
| `Mime.EnvelopeRefolds` | lib/nodemailer-openpgp.js:71-88 | the envelope holds no content header, and refolding its lines gives the original envelope headers followed by `Content-Type` with its boundary line, `Content-Description` and `Content-Transfer-Encoding` |
| `Mime.ProtectionTail` | lib/nodemailer-openpgp.js:83-86 | the four appended lines fold into three headers: the boundary line continues `Content-Type`, and the description and transfer encoding stand alone |
| `Mime.SerializeWithTail` | lib/nodemailer-openpgp.js:83-88 | serialising headers followed by appended groups equals serialising the headers, a line break, then the appended lines joined with `\r\n` |
| `Mime.MailBodyRoundTrip` | lib/nodemailer-openpgp.js:106-126 | the body is a fixed head, the ciphertext verbatim and the closing delimiter, and the ciphertext can be read back from it |
| `Mime.MailBodyDelimiters` | lib/nodemailer-openpgp.js:106-126 | the body starts with the preamble, has the `--B` delimiter before the control part and before the data part, and ends with `\r\n--B--\r\n` |
| `Encryption.ConcatLength` | lib/nodemailer-openpgp.js:29-31 | the joined chunks are as long as the sum of the chunk lengths |
| `Encryption.BufferConcat` | lib/nodemailer-openpgp.js:41 | `Buffer.concat` with a total length yields exactly that many bytes |
| `Encryption.BufferConcatExact` | lib/nodemailer-openpgp.js:41 | when the recorded length is the sum of the chunk lengths, the message is exactly the chunks joined in order |
| `Encryption.ReadAll` | lib/nodemailer-openpgp.js:44 | all keys are read if and only if every one of them can be; the result then holds each read key at its position |
| `Encryption.SigningKeyAsWritten` | lib/nodemailer-openpgp.js:51-63 | the source uses a private key if and only if one is configured, it can be read, and, when a passphrase is given, unlocking does not settle falsy (a throwing unlock keeps the key); the key used is the key read |
| `Encryption.SigningKey` | lib/nodemailer-openpgp.js:51-63 | the intended rule: a private key is used if and only if one is configured, it can be read, and, when a passphrase is given, unlocking succeeds; the key used is the key read |
| `Encryption.SigningKeyAsWrittenKeepsLockedKey` | lib/nodemailer-openpgp.js:51-63 | the code as written differs from that rule exactly when unlocking throws, and then it keeps the locked key |
| `Encryption.LockedKeyExample` | lib/nodemailer-openpgp.js:57-62 | a concrete configuration for which the code as written signs with a key whose unlocking threw |
| `Encryption.LockedKeyDropsMessage` | lib/nodemailer-openpgp.js:53-62 | for a library that refuses locked keys, the code as written ends with no output where the intended rule would emit the encrypted message |
| `Encryption.UnreadableKeyNeverSettles` | lib/nodemailer-openpgp.js:44 | with the key list missing or any public key unreadable, the flush never calls `done()` |
| `Encryption.PassThroughUnchanged` | lib/nodemailer-openpgp.js:46-49 | with an empty key list the emitted output is the message byte for byte, whatever the library and the random bytes |
| `Encryption.EncryptedOutcome` | lib/nodemailer-openpgp.js:65-131 | with readable keys, encrypt receives exactly the body headers + `" \r\n\r\n "` + the body, with the private key chosen as the source chooses it. If it fails nothing is emitted. Otherwise the single output is the envelope, a blank line and the multipart body, and the ciphertext reads back from that body |
| `Encryption.NonListKeysNeverSettle` | lib/nodemailer-openpgp.js:146-155 | keys that are truthy, not an array and without a `map` method (a string, a plain object) install the encrypter; the options it receives (`EncrypterOptions`) then carry no key list, and its flush never calls `done()` |
| `Encryption.PluginSkipsOnlyPassThrough` | lib/nodemailer-openpgp.js:146-148 | for a key array handed over by `EncrypterOptions`, the plugin skips the message if and only if the encrypter would emit every message unchanged whatever the library does |
| `Encryption.Encrypter.constructor` | lib/nodemailer-openpgp.js:14-20 | a new encrypter keeps its options and starts with no chunks and length 0 |
| `Encryption.Encrypter.Transform` | lib/nodemailer-openpgp.js:25-33 | the chunk is appended after the earlier ones, its length is added, and the length stays the sum of the chunk lengths |
| `Encryption.Encrypter.ChooseSigningKey` | lib/nodemailer-openpgp.js:51-63 | the `try` block leaves in `privKey` exactly the key the source rule `SigningKeyAsWritten` selects: none without a readable key, none after a falsy unlock, the read key otherwise, also when unlocking throws |
| `Encryption.Encrypter.Flush` | lib/nodemailer-openpgp.js:38-133 | flushing rebuilds exactly the buffered chunks joined in order, and its outcome is what `FlushOutcome` prescribes for that message (see `PassThroughUnchanged`, `UnreadableKeyNeverSettles` and `EncryptedOutcome`); the private key is chosen as `SigningKeyAsWritten` chooses it, and the loop's lists are the specification's selections |

## Left out

- OpenPGP itself (`openpgp.readKey`, `privKey.decrypt`, `openpgp.encrypt`) is foreign cryptography. It is modelled as three total functions: a read key or a rejection; an unlock that succeeds, resolves falsy or throws; a ciphertext or a rejection. Nothing is said about what the ciphertext contains.
- `openpgp.Message.fromText` is taken to wrap the plaintext unchanged and is assumed not to throw. It runs outside the `try` of the encryption step, so a throw there would reject the flush before `done()` (an `Unsettled` outcome), not drop the message; the model has no such case.
- `crypto.randomBytes(14)` is a parameter of `Flush`. Only its hex encoding and the `nm_` prefix are modelled.
- Streams and promises are not modelled as such:
  - The `Transform` base class, `push`/`done`, the async function in `_flush` and `setImmediate` in the plugin are reduced to the three-way `Outcome`.
  - `Emitted` means one push followed by `done()`.
  - `Dropped` means `done()` with nothing pushed.
  - `Unsettled` means the promise rejects before `done()`, so the stream never finishes.
- Byte encodings are left out: the `Buffer.from(chunk, encoding)` conversion, `message.toString()` and the final `Buffer.from` are not modelled. A message is a sequence of characters, one per byte, so a chunk's length is its number of characters. The `\s` test of header folding is therefore exact only for ASCII text: the source applies it after `message.toString()` has decoded UTF-8, so on bytes of 0x80 and above the two can disagree (a lone 0xA0 byte is whitespace here but decodes to U+FFFD there, and the UTF-8 no-break space C2 A0 opens a new header here but continues one there).
- The write to `this._message` in `_transform` is never read, so it is not modelled.
- Option values are simplified. An absent or falsy signing key is `None`, and a configured one is the text its `toString()` gives. A passphrase is used only when it is a non-empty string. The mail's keys are missing, an array of armored strings, or some other truthy value that has no `map` method (a string, a plain object).
- A `Buffer` passed as the mail's keys is not modelled. The plugin's guard lets it through because it is not an array. For a non-empty `Buffer`, `map` turns every byte into an element of 0, so `Promise.all` resolves to a list of zeros rather than rejecting, and the flush goes on to encryption; for an empty one, `Promise.all` resolves to an empty list and the message passes through unchanged.
- The test suite drives the plugin through nodemailer's transport and is not part of this model.
- The code does not do the following, and neither does the model:
  - The code has no sign-only mode, no `multipart/signed` output and no switch that turns signing off. Encryption is its only transformation.
  - A public key that cannot be read does not drop that key. It rejects `Promise.all`, and the flush never finishes (`Unsettled`).
  - When encryption fails, the message is not failed with an error. `done()` is called with no output (`Dropped`).
  - The encrypted plaintext is the body headers, then `" \r\n\r\n "` with a space on each side, then the body. It is not the body headers, a bare blank line and the body.
- A message with no blank line whose header block ends in `\r\n` is not given a lemma of its own. The model reproduces what the code does with it: the last physical header line is empty, so the envelope contains a blank line before the protection headers, and a reader of the output would see those headers as body text.

## Findings

| source | as written | input that shows it | evidently intended | confidence | as-written member | corrected member |
|---|---|---|---|---|---|---|
| lib/nodemailer-openpgp.js:52-62 | `privKey` is assigned the read key before `privKey.decrypt(passphrase)` runs; when `decrypt` throws (a wrong passphrase), the catch ignores the error and `privKey` still holds the locked key, which line 101 passes to `openpgp.encrypt`; `FlushOutcome` and `Flush` follow this, and `FlushOutcomeIntended` uses the corrected rule | a readable signing key, a non-empty passphrase and an unlock that throws, as in `Encryption.LockedKeyExample`; with a library that refuses locked keys the message is then dropped (`Encryption.LockedKeyDropsMessage`) | a key that cannot be unlocked is not used for signing, like the case where `decrypt` resolves falsy | medium, not executed | `Encryption.SigningKeyAsWritten` | `Encryption.SigningKey` |
