/**
 * The `Encrypter` transform stream and the `openpgpEncrypt` plugin hook:
 * chunks are buffered as they arrive, and at the end of the input the whole
 * message is either passed through untouched or replaced by its
 * OpenPGP/MIME encrypted form. The OpenPGP library and the random source
 * are parameters.
 */
module Encryption {
  import opened Wrappers
  import opened Text
  import opened Hex
  import opened Headers
  import opened Mime

  /** A key object returned by the OpenPGP library. */
  datatype Key = Key(handle: nat)

  /** How `privKey.decrypt(passphrase)` settles: with a truthy value, with
      a falsy value, or by throwing. */
  datatype Decryption = Unlocked | Refused | Threw

  /** The OpenPGP library calls the encrypter makes. `None` stands for a
      rejected promise. */
  datatype Crypto = Crypto(
    readKey: string -> Option<Key>,
    decryptKey: (Key, string) -> Decryption,
    encrypt: (string, seq<Key>, Option<Key>) -> Option<string>)

  /** The encrypter's options. `None` stands for an absent (or falsy)
      option; a passphrase is used only when it is a non-empty string. */
  datatype Options = Options(signingKey: Option<string>, passphrase: Option<string>, encryptionKeys: Option<seq<string>>)

  /** How `_flush` ends: it pushes one output and calls `done()`; it calls
      `done()` without pushing anything; or its promise rejects before
      `done()` is called, so the stream never finishes. */
  datatype Outcome = Emitted(output: string) | Dropped | Unsettled

  /** The chunks joined in arrival order. */
  function Concat(chunks: seq<string>): string
  {
    if |chunks| == 0 then "" else Concat(chunks[..|chunks| - 1]) + chunks[|chunks| - 1]
  }

  /** The sum of the chunk lengths. */
  function TotalLength(chunks: seq<string>): nat
  {
    if |chunks| == 0 then 0 else TotalLength(chunks[..|chunks| - 1]) + |chunks[|chunks| - 1]|
  }

  lemma {:induction false} ConcatLength(chunks: seq<string>)
    ensures |Concat(chunks)| == TotalLength(chunks)
    decreases |chunks|
  {
    if |chunks| > 0 {
      ConcatLength(chunks[..|chunks| - 1]);
    }
  }

  /** `Buffer.concat(chunks, totalLength)`: the chunks joined, cut to
      `totalLength` or padded with zero bytes up to it. */
  function BufferConcat(chunks: seq<string>, totalLength: nat): (r: string)
    ensures |r| == totalLength
  {
    var all := Concat(chunks);
    if totalLength <= |all| then all[..totalLength] else all + seq(totalLength - |all|, _ => '\0')
  }

  /** With the length kept equal to the sum of the chunk lengths, the
      buffer is exactly the chunks joined in order. */
  lemma BufferConcatExact(chunks: seq<string>, totalLength: nat)
    requires totalLength == TotalLength(chunks)
    ensures BufferConcat(chunks, totalLength) == Concat(chunks)
  {
    ConcatLength(chunks);
  }

  /** `Promise.all(keys.map(armoredKey => openpgp.readKey({ armoredKey })))`:
      all keys in order, or a rejection if any one cannot be read. */
  function ReadAll(armored: seq<string>, readKey: string -> Option<Key>): (r: Option<seq<Key>>)
    ensures r.Some? <==> forall i :: 0 <= i < |armored| ==> readKey(armored[i]).Some?
    ensures r.Some? ==> |r.value| == |armored| &&
                        forall i :: 0 <= i < |armored| ==> r.value[i] == readKey(armored[i]).value
  {
    if |armored| == 0 then Some([])
    else match (readKey(armored[0]), ReadAll(armored[1..], readKey))
      case (Some(k), Some(rest)) => Some([k] + rest)
      case _ => None
  }

  /** A passphrase string is used only when it is truthy (non-empty). */
  predicate Truthy(s: Option<string>)
  {
    s.Some? && s.value != ""
  }

  /** The private key as the source selects it: when `privKey.decrypt`
      throws, `privKey` already holds the key read, and the exception is
      swallowed, so the still-locked key is kept. A key is dropped only
      when unlocking settles with a falsy value. */
  function SigningKeyAsWritten(options: Options, crypto: Crypto): (r: Option<Key>)
    ensures r.Some? <==>
              && options.signingKey.Some?
              && crypto.readKey(options.signingKey.value).Some?
              && (Truthy(options.passphrase) ==>
                    crypto.decryptKey(crypto.readKey(options.signingKey.value).value, options.passphrase.value) != Refused)
    ensures r.Some? ==> r == crypto.readKey(options.signingKey.value)
  {
    if options.signingKey.None? then None
    else match crypto.readKey(options.signingKey.value)
      case None => None
      case Some(key) =>
        if !Truthy(options.passphrase) then Some(key)
        else match crypto.decryptKey(key, options.passphrase.value)
          case Unlocked => Some(key)
          case Refused => None
          case Threw => Some(key)
  }

  /** The private key used for signing: one is used exactly when a signing
      key is configured, it can be read, and, when a passphrase is given,
      unlocking it with the passphrase succeeds. */
  function SigningKey(options: Options, crypto: Crypto): (r: Option<Key>)
    ensures r.Some? <==>
              && options.signingKey.Some?
              && crypto.readKey(options.signingKey.value).Some?
              && (Truthy(options.passphrase) ==>
                    crypto.decryptKey(crypto.readKey(options.signingKey.value).value, options.passphrase.value) == Unlocked)
    ensures r.Some? ==> r == crypto.readKey(options.signingKey.value)
  {
    if options.signingKey.None? then None
    else match crypto.readKey(options.signingKey.value)
      case None => None
      case Some(key) =>
        if !Truthy(options.passphrase) then Some(key)
        else match crypto.decryptKey(key, options.passphrase.value)
          case Unlocked => Some(key)
          case Refused => None
          case Threw => None
  }

  /** The two selections differ exactly when unlocking throws: the source
      then hands the locked key to `encrypt`. */
  lemma SigningKeyAsWrittenKeepsLockedKey(options: Options, crypto: Crypto)
    ensures SigningKeyAsWritten(options, crypto) != SigningKey(options, crypto) <==>
              && options.signingKey.Some?
              && crypto.readKey(options.signingKey.value).Some?
              && Truthy(options.passphrase)
              && crypto.decryptKey(crypto.readKey(options.signingKey.value).value, options.passphrase.value) == Threw
    ensures SigningKeyAsWritten(options, crypto) != SigningKey(options, crypto) ==>
              SigningKeyAsWritten(options, crypto) == crypto.readKey(options.signingKey.value)
  {
  }

  /** An input on which the source signs with a key it could not unlock. */
  lemma LockedKeyExample()
    ensures var options := Options(Some("private key"), Some("wrong passphrase"), Some(["public key"]));
            var crypto := Crypto(_ => Some(Key(0)), (_, _) => Threw, (_, _, _) => None);
            SigningKeyAsWritten(options, crypto) == Some(Key(0)) && SigningKey(options, crypto) == None
  {
  }

  /** The encryption step of `_flush` once the public keys are read: split
      the message, route its headers, encrypt the content headers and body,
      and assemble the OpenPGP/MIME message. */
  function EncryptMessage(message: string, pubKeys: seq<Key>, privKey: Option<Key>, crypto: Crypto, random: seq<byte>): Outcome
  {
    var parts := SplitMessage(message);
    var boundary := Boundary(random);
    var groups := FoldLines(HeaderLines(parts.header));
    var data := PlainText(SerializeHeaders(Select(groups, true)), parts.body);
    match crypto.encrypt(data, pubKeys, privKey)
    case None => Dropped
    case Some(encrypted) =>
      Emitted(EncryptedMessage(EnvelopeText(Select(groups, false), boundary), MailBody(boundary, encrypted)))
  }

  /** The course of `_flush` once the private key is chosen: a rejection
      while reading the public keys, pass-through when there are none, and
      the encryption step otherwise. */
  function FlushWithSigningKey(message: string, options: Options, crypto: Crypto, random: seq<byte>, privKey: Option<Key>): Outcome
  {
    if options.encryptionKeys.None? then Unsettled
    else match ReadAll(options.encryptionKeys.value, crypto.readKey)
      case None => Unsettled
      case Some(pubKeys) =>
        if |pubKeys| == 0 then Emitted(message)
        else EncryptMessage(message, pubKeys, privKey, crypto, random)
  }

  /** What `_flush` does with the finished message, choosing the private key
      as the source does. */
  function FlushOutcome(message: string, options: Options, crypto: Crypto, random: seq<byte>): Outcome
  {
    FlushWithSigningKey(message, options, crypto, random, SigningKeyAsWritten(options, crypto))
  }

  /** What `_flush` would do if a key that cannot be unlocked were not used. */
  function FlushOutcomeIntended(message: string, options: Options, crypto: Crypto, random: seq<byte>): Outcome
  {
    FlushWithSigningKey(message, options, crypto, random, SigningKey(options, crypto))
  }

  /** Missing keys, or a public key that cannot be read, leave the flush
      rejected: `done()` is never called, whatever else happens. */
  lemma UnreadableKeyNeverSettles(message: string, options: Options, crypto: Crypto, random: seq<byte>)
    requires options.encryptionKeys.None? ||
             exists i :: 0 <= i < |options.encryptionKeys.value| && crypto.readKey(options.encryptionKeys.value[i]).None?
    ensures FlushOutcome(message, options, crypto, random) == Unsettled
    ensures FlushOutcomeIntended(message, options, crypto, random) == Unsettled
  {
  }

  /** The consequence of keeping a locked key: with a library that refuses
      to sign with a locked key, the source drops the message, where
      leaving the key out would have sent it encrypted. */
  lemma LockedKeyDropsMessage(message: string, random: seq<byte>)
    ensures var options := Options(Some("private key"), Some("wrong passphrase"), Some(["public key"]));
            var crypto := Crypto(_ => Some(Key(0)), (_, _) => Threw,
                                 (data: string, pubKeys: seq<Key>, privKey: Option<Key>) => if privKey.Some? then None else Some("ciphertext"));
            FlushOutcome(message, options, crypto, random) == Dropped &&
            FlushOutcomeIntended(message, options, crypto, random).Emitted?
  {
    var options := Options(Some("private key"), Some("wrong passphrase"), Some(["public key"]));
    var crypto := Crypto(_ => Some(Key(0)), (_, _) => Threw,
                         (data: string, pubKeys: seq<Key>, privKey: Option<Key>) => if privKey.Some? then None else Some("ciphertext"));
    var pubKeys := ReadAll(["public key"], crypto.readKey);
    assert pubKeys.Some? && |pubKeys.value| == 1;
    assert SigningKeyAsWritten(options, crypto) == Some(Key(0));
    assert SigningKey(options, crypto) == None;
    assert EncryptMessage(message, pubKeys.value, Some(Key(0)), crypto, random) == Dropped;
    assert EncryptMessage(message, pubKeys.value, None, crypto, random).Emitted?;
  }

  /** With an empty key list the message is emitted exactly as received,
      whatever the OpenPGP library and the random source would do. */
  lemma PassThroughUnchanged(message: string, options: Options, crypto: Crypto, random: seq<byte>)
    requires options.encryptionKeys == Some([])
    ensures FlushOutcome(message, options, crypto, random) == Emitted(message)
  {
  }

  /** With readable public keys, the outcome is the encryption step's: the
      single emitted message is the envelope, a blank line and the
      multipart body around the ciphertext of exactly
      `bodyHeaders + " \r\n\r\n " + body`, or nothing is emitted when
      encryption fails. */
  lemma EncryptedOutcome(message: string, options: Options, crypto: Crypto, random: seq<byte>)
    requires options.encryptionKeys.Some? && |options.encryptionKeys.value| > 0
    requires forall i :: 0 <= i < |options.encryptionKeys.value| ==> crypto.readKey(options.encryptionKeys.value[i]).Some?
    ensures var pubKeys := ReadAll(options.encryptionKeys.value, crypto.readKey).value;
            var parts := SplitMessage(message);
            var groups := FoldLines(HeaderLines(parts.header));
            var data := PlainText(SerializeHeaders(Select(groups, true)), parts.body);
            var boundary := Boundary(random);
            var outcome := FlushOutcome(message, options, crypto, random);
            && (crypto.encrypt(data, pubKeys, SigningKeyAsWritten(options, crypto)).None? ==> outcome == Dropped)
            && (crypto.encrypt(data, pubKeys, SigningKeyAsWritten(options, crypto)).Some? ==>
                  var encrypted := crypto.encrypt(data, pubKeys, SigningKeyAsWritten(options, crypto)).value;
                  && outcome.Emitted?
                  && outcome.output == EnvelopeText(Select(groups, false), boundary) + BLANK_LINE + MailBody(boundary, encrypted)
                  && ParseMailBody(MailBody(boundary, encrypted), boundary) == Some(encrypted))
  {
    var keys := options.encryptionKeys.value;
    var pubKeys := ReadAll(keys, crypto.readKey).value;
    assert |pubKeys| == |keys|;
    var parts := SplitMessage(message);
    var groups := FoldLines(HeaderLines(parts.header));
    var data := PlainText(SerializeHeaders(Select(groups, true)), parts.body);
    var boundary := Boundary(random);
    match crypto.encrypt(data, pubKeys, SigningKeyAsWritten(options, crypto))
    case None =>
    case Some(encrypted) => MailBodyRoundTrip(boundary, encrypted);
  }

  /** The value of `mail.data.encryptionKeys`: absent (or falsy), an array
      of armored keys, or some other truthy value. */
  datatype MailKeys = Missing | Listed(keys: seq<string>) | NotAList
  // NotAList: a truthy value with no `map` method, such as a string or a
  // plain object; a `Buffer` or other typed array is not modelled

  /** The guard of the plugin: no encrypter is installed when the keys are
      missing or an empty array. */
  function InstallsEncrypter(keys: MailKeys): bool
  {
    !(keys.Missing? || (keys.Listed? && |keys.keys| == 0))
  }

  /** The options the plugin gives each encrypter: its own signing key and
      passphrase, and the mail's keys. A value that is not an array and has
      no `map` makes `encryptionKeys.map` throw in `_flush`, as missing keys do. */
  function EncrypterOptions(signingKey: Option<string>, passphrase: Option<string>, keys: MailKeys): Options
  {
    Options(signingKey, passphrase, if keys.Listed? then Some(keys.keys) else None)
  }

  /** An installed encrypter whose keys are neither an array nor anything
      else with a `map` method never finishes: its flush rejects before
      calling `done()`. */
  lemma NonListKeysNeverSettle(signingKey: Option<string>, passphrase: Option<string>, message: string, crypto: Crypto, random: seq<byte>)
    ensures InstallsEncrypter(NotAList)
    ensures FlushOutcome(message, EncrypterOptions(signingKey, passphrase, NotAList), crypto, random) == Unsettled
  {
  }

  /** For a list of keys, the plugin skips exactly the lists for which the
      encrypter would pass every message through unchanged, whatever the
      OpenPGP library does. */
  lemma PluginSkipsOnlyPassThrough(keys: seq<string>, signingKey: Option<string>, passphrase: Option<string>)
    ensures !InstallsEncrypter(Listed(keys)) <==>
              forall message: string, crypto: Crypto, random: seq<byte> ::
                FlushOutcome(message, EncrypterOptions(signingKey, passphrase, Listed(keys)), crypto, random) == Emitted(message)
  {
    var options := EncrypterOptions(signingKey, passphrase, Listed(keys));
    if !InstallsEncrypter(Listed(keys)) {
      forall message: string, crypto: Crypto, random: seq<byte>
        ensures FlushOutcome(message, options, crypto, random) == Emitted(message)
      {
        PassThroughUnchanged(message, options, crypto, random);
      }
    } else {
      var failing := Crypto(_ => Some(Key(0)), (_, _) => Unlocked, (_, _, _) => None);
      var pubKeys := ReadAll(keys, failing.readKey);
      assert pubKeys.Some? && |pubKeys.value| == |keys| > 0;
      var privKey := SigningKeyAsWritten(options, failing);
      assert EncryptMessage("", pubKeys.value, privKey, failing, []) == Dropped;
      assert FlushWithSigningKey("", options, failing, [], privKey) == Dropped;
      assert FlushOutcome("", options, failing, []) == Dropped;
    }
  }

  /** The transform stream: it buffers every chunk and emits once, at the
      end of the input. */
  class Encrypter {
    const options: Options
    var messageChunks: seq<string>
    var messageLength: nat

    /** The recorded length is the sum of the chunk lengths. */
    ghost predicate Valid()
      reads this
    {
      messageLength == TotalLength(messageChunks)
    }

    constructor (options: Options)
      ensures Valid()
      ensures this.options == options && messageChunks == [] && messageLength == 0
    {
      this.options := options;
      messageChunks := [];
      messageLength := 0;
    }

    /** `_transform`: appends the chunk and adds its length. */
    method Transform(chunk: string)
      requires Valid()
      modifies this
      ensures Valid()
      ensures messageChunks == old(messageChunks) + [chunk]
      ensures messageLength == old(messageLength) + |chunk|
    {
      messageChunks := messageChunks + [chunk];
      messageLength := messageLength + |chunk|;
      assert messageChunks[..|messageChunks| - 1] == old(messageChunks);
    }

    /** The `try` block of `_flush` that reads and unlocks the signing key. */
    method ChooseSigningKey(crypto: Crypto) returns (privKey: Option<Key>)
      ensures privKey == SigningKeyAsWritten(options, crypto)
    {
      privKey := None;
      if options.signingKey.Some? {
        var read := crypto.readKey(options.signingKey.value);
        if read.Some? {
          privKey := read;
          // a throwing unlock is caught and ignored, so the key read stays
          if Truthy(options.passphrase) && crypto.decryptKey(read.value, options.passphrase.value) == Refused {
            privKey := None;
          }
        }
      }
    }

    /** `_flush`: builds the message from the buffered chunks, then passes it
        through, encrypts it, or ends as the library calls settle. The
        random bytes stand for `crypto.randomBytes(14)`. */
    method Flush(crypto: Crypto, random: seq<byte>) returns (outcome: Outcome)
      requires Valid()
      requires |random| == RANDOM_BYTES
      ensures outcome == FlushOutcome(Concat(messageChunks), options, crypto, random)
    {
      var message := BufferConcat(messageChunks, messageLength);
      BufferConcatExact(messageChunks, messageLength);
      if options.encryptionKeys.None? {
        return Unsettled;
      }
      var pubKeys := ReadAll(options.encryptionKeys.value, crypto.readKey);
      if pubKeys.None? {
        return Unsettled;
      }
      if |pubKeys.value| == 0 {
        return Emitted(message);
      }
      var privKey := ChooseSigningKey(crypto);
      var parts := SplitMessage(message);
      var boundary := Boundary(random);
      var headers, bodyHeaders := ClassifyHeaders(parts.header);
      var headerText := EnvelopeText(headers, boundary);
      var data := PlainText(SerializeHeaders(bodyHeaders), parts.body);
      var encrypted := crypto.encrypt(data, pubKeys.value, privKey);
      if encrypted.None? {
        return Dropped;
      }
      var mailBody := MailBody(boundary, encrypted.value);
      return Emitted(EncryptedMessage(headerText, mailBody));
    }
  }
}
