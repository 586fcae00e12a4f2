/** The conversation cipher policy of utils/encryption.js: key derivation from a
    pair of usernames and the shared secret, the key selection rule, fail-open
    encryption, and the decryption pipeline with its fallback and its three
    placeholder results.

    SHA-256, AES and the process secret are not modelled: they are the fields of
    a `Crypto` value that every operation receives, so nothing is assumed about
    them beyond what a lemma states in its `requires` (`Sound`). */
module Encryption {
  import opened Js

  /** The cryptographic environment. `None` from a primitive means that the
      primitive threw. `aesDecrypt` already includes the UTF-8 decoding of the
      plaintext, so a wrong key shows up as `Some("")` or as a throw. */
  datatype Crypto = Crypto(
    secret: string,                                // process.env.ENCRYPTION_SECRET
    sha256: string -> Option<string>,              // hex digest of a string
    aesEncrypt: (string, string) -> Option<string>, // (key, message) to ciphertext
    aesDecrypt: (string, string) -> Option<string>) // (key, ciphertext) to plaintext

  /** The cipher axiom: a ciphertext produced under a key is a non-empty string
      that decrypts, under the same key, to the message it was made from. */
  ghost predicate Sound(c: Crypto)
  {
    forall k, m :: c.aesEncrypt(k, m).Some? ==>
      c.aesEncrypt(k, m).value != "" && c.aesDecrypt(k, c.aesEncrypt(k, m).value) == Some(m)
  }

  // The three placeholder results of decryptMessage.
  const InvalidMessage := "[Invalid Message]"
  const DecryptionFailed := "[Decryption Failed]"
  const EncryptedPlaceholder := "[Encrypted Message]"

  predicate IsSentinel(s: string)
  {
    s == InvalidMessage || s == DecryptionFailed || s == EncryptedPlaceholder
  }

  lemma SentinelsDistinct()
    ensures InvalidMessage != DecryptionFailed
    ensures InvalidMessage != EncryptedPlaceholder
    ensures DecryptionFailed != EncryptedPlaceholder
    ensures IsSentinel(InvalidMessage) && IsSentinel(DecryptionFailed) && IsSentinel(EncryptedPlaceholder)
  {
  }

  // ---------------------------------------------------------------------------
  // Private keys

  type Byte = x: int | 0 <= x < 256

  function HexDigit(n: int): (c: char)
    requires 0 <= n < 16
  {
    "0123456789abcdef"[n]
  }

  /** A lower-case hexadecimal digit. */
  predicate IsHexDigit(c: char)
  {
    '0' <= c <= '9' || 'a' <= c <= 'f'
  }

  function HexValue(c: char): int
  {
    if '0' <= c <= '9' then c as int - '0' as int
    else if 'a' <= c <= 'f' then c as int - 'a' as int + 10
    else 0
  }

  /** `Buffer.toString('hex')`: two lower-case digits per byte, high nibble first. */
  function HexEncode(bytes: seq<Byte>): (r: string)
    ensures |r| == 2 * |bytes|
  {
    if bytes == [] then ""
    else [HexDigit(bytes[0] / 16), HexDigit(bytes[0] % 16)] + HexEncode(bytes[1..])
  }

  /** Every character of the encoding is a lower-case hex digit. */
  lemma {:induction false} HexEncodeDigits(bytes: seq<Byte>)
    ensures forall i :: 0 <= i < |HexEncode(bytes)| ==> IsHexDigit(HexEncode(bytes)[i])
  {
    if bytes != [] {
      var b := bytes[0];
      Nibbles(b);
      var d := [HexDigit(b / 16), HexDigit(b % 16)];
      var rest := HexEncode(bytes[1..]);
      HexEncodeDigits(bytes[1..]);
      HexDigitValue(b / 16);
      HexDigitValue(b % 16);
      forall i | 0 <= i < |d + rest| ensures IsHexDigit((d + rest)[i]) {
        if i >= 2 {
          assert (d + rest)[i] == rest[i - 2];
        }
      }
    }
  }

  function HexDecode(s: string): seq<Byte>
    decreases |s|
  {
    if |s| < 2 then []
    else
      var hi, lo := HexValue(s[0]), HexValue(s[1]);
      [if 0 <= hi < 16 && 0 <= lo < 16 then hi * 16 + lo else 0] + HexDecode(s[2..])
  }

  /** `generatePrivateKey`: the hex encoding of 32 random bytes, which the
      caller supplies (the randomness of crypto.randomBytes is not modelled). */
  function GeneratePrivateKey(randomBytes: seq<Byte>): (key: string)
    requires |randomBytes| == 32
    ensures |key| == 64
    ensures forall i :: 0 <= i < |key| ==> IsHexDigit(key[i])
  {
    HexEncodeDigits(randomBytes);
    HexEncode(randomBytes)
  }

  /** Reading a digit back gives its value. */
  lemma HexDigitValue(n: int)
    requires 0 <= n < 16
    ensures IsHexDigit(HexDigit(n)) && HexValue(HexDigit(n)) == n
  {
  }

  /** A byte is its high nibble times sixteen plus its low nibble. */
  lemma Nibbles(b: Byte)
    ensures 0 <= b / 16 < 16 && 0 <= b % 16 < 16 && b / 16 * 16 + b % 16 == b
  {
  }

  /** The hex encoding loses nothing, so distinct random bytes give distinct keys. */
  lemma {:induction false} HexRoundTrip(bytes: seq<Byte>)
    ensures HexDecode(HexEncode(bytes)) == bytes
  {
    if bytes != [] {
      var b := bytes[0];
      var hi, lo := b / 16, b % 16;
      Nibbles(b);
      HexDigitValue(hi);
      HexDigitValue(lo);
      var e := HexEncode(bytes);
      assert e == [HexDigit(hi), HexDigit(lo)] + HexEncode(bytes[1..]);
      assert e[2..] == HexEncode(bytes[1..]);
      HexRoundTrip(bytes[1..]);
      assert HexDecode(e) == [b] + HexDecode(e[2..]);
      assert bytes == [b] + bytes[1..];
    }
  }

  lemma PrivateKeysDistinct(b1: seq<Byte>, b2: seq<Byte>)
    requires |b1| == 32 && |b2| == 32 && b1 != b2
    ensures GeneratePrivateKey(b1) != GeneratePrivateKey(b2)
  {
    HexRoundTrip(b1);
    HexRoundTrip(b2);
  }

  // ---------------------------------------------------------------------------
  // Conversation keys

  /** The default string order of `Array.prototype.sort`, character by character. */
  predicate LexLessEq(a: string, b: string)
  {
    a == [] || (b != [] && (a[0] < b[0] || (a[0] == b[0] && LexLessEq(a[1..], b[1..]))))
  }

  lemma {:induction false} LexTotal(a: string, b: string)
    ensures LexLessEq(a, b) || LexLessEq(b, a)
  {
    if a != [] && b != [] && a[0] == b[0] {
      LexTotal(a[1..], b[1..]);
    }
  }

  lemma {:induction false} LexAntisymmetric(a: string, b: string)
    requires LexLessEq(a, b) && LexLessEq(b, a)
    ensures a == b
  {
    if a != [] {
      LexAntisymmetric(a[1..], b[1..]);
      assert a == [a[0]] + a[1..] && b == [b[0]] + b[1..];
    }
  }

  /** `[user1, user2].sort().join('_')`. */
  function SortedJoin(a: string, b: string): string
  {
    if LexLessEq(a, b) then a + "_" + b else b + "_" + a
  }

  lemma SortedJoinSymmetric(a: string, b: string)
    ensures SortedJoin(a, b) == SortedJoin(b, a)
  {
    LexTotal(a, b);
    if LexLessEq(a, b) && LexLessEq(b, a) {
      LexAntisymmetric(a, b);
    }
  }

  /** `generateConversationKey(user1, user2)`. */
  function ConversationKey(c: Crypto, a: string, b: string): Option<string>
  {
    c.sha256(SortedJoin(a, b) + c.secret)
  }

  /** The key of a conversation does not depend on who is the sender. */
  lemma ConversationKeySymmetric(c: Crypto, a: string, b: string)
    ensures ConversationKey(c, a, b) == ConversationKey(c, b, a)
  {
    SortedJoinSymmetric(a, b);
  }

  /** Joining with '_' is not injective: the pairs ("a_b", "c") and ("a", "b_c")
      share a conversation key. */
  lemma ConversationKeyCollision(c: Crypto)
    ensures ConversationKey(c, "a_b", "c") == ConversationKey(c, "a", "b_c")
  {
    assert LexLessEq("a_b", "c");
    assert LexLessEq("a", "b_c");
    assert SortedJoin("a_b", "c") == "a_b_c" == SortedJoin("a", "b_c");
  }

  // ---------------------------------------------------------------------------
  // Key selection

  /** Which key material a call of encryptMessage or the first attempt of
      decryptMessage uses. */
  datatype KeyChoice = ConversationKeyOf(a: string, b: string) | PrivateKeyOf(privateKey: string)

  function ChooseKey(privateKey: string, sender: Option<string>, recipient: Option<string>): (k: KeyChoice)
    ensures k.ConversationKeyOf? <==> Truthy(sender) && Truthy(recipient)
    ensures k.ConversationKeyOf? ==> k.a == sender.value && k.b == recipient.value
    ensures k.PrivateKeyOf? ==> k.privateKey == privateKey
  {
    if Truthy(sender) && Truthy(recipient) then ConversationKeyOf(sender.value, recipient.value)
    else PrivateKeyOf(privateKey)
  }

  /** The key string for a choice; `None` when deriving it threw. */
  function KeyMaterial(c: Crypto, k: KeyChoice): Option<string>
  {
    match k
    case ConversationKeyOf(a, b) => ConversationKey(c, a, b)
    case PrivateKeyOf(pk) => Some(pk + c.secret)
  }

  /** Swapping sender and recipient selects the same key. */
  lemma KeyChoiceSymmetric(c: Crypto, pk: string, s: Option<string>, r: Option<string>)
    ensures KeyMaterial(c, ChooseKey(pk, s, r)) == KeyMaterial(c, ChooseKey(pk, r, s))
  {
    if Truthy(s) && Truthy(r) {
      ConversationKeySymmetric(c, s.value, r.value);
    }
  }

  // ---------------------------------------------------------------------------
  // Encryption

  /** True when neither the key derivation nor AES throws for this call. */
  predicate EncryptSucceeds(c: Crypto, message: string, pk: string, s: Option<string>, r: Option<string>)
  {
    var key := KeyMaterial(c, ChooseKey(pk, s, r));
    key.Some? && c.aesEncrypt(key.value, message).Some?
  }

  /** `encryptMessage(message, privateKey, sender, recipient)`. */
  function EncryptMessage(c: Crypto, message: string, pk: string, s: Option<string>, r: Option<string>): (e: string)
    ensures !EncryptSucceeds(c, message, pk, s, r) ==> e == message
    ensures EncryptSucceeds(c, message, pk, s, r) ==>
      e == c.aesEncrypt(KeyMaterial(c, ChooseKey(pk, s, r)).value, message).value
  {
    match KeyMaterial(c, ChooseKey(pk, s, r))
    case None => message
    case Some(key) =>
      match c.aesEncrypt(key, message)
      case None => message
      case Some(encrypted) => encrypted
  }

  // ---------------------------------------------------------------------------
  // Decryption

  /** One guarded AES attempt: a throw leaves the result empty. */
  function Attempt(c: Crypto, key: string, ciphertext: string): string
  {
    match c.aesDecrypt(key, ciphertext)
    case Some(d) => d
    case None => ""
  }

  /** The result of the conversation-key attempt: empty when it is skipped,
      when it throws, or when it yields nothing. */
  function FirstAttempt(c: Crypto, ciphertext: string, pk: string, s: Option<string>, r: Option<string>): string
  {
    var choice := ChooseKey(pk, s, r);
    if choice.ConversationKeyOf? && ConversationKey(c, choice.a, choice.b).Some? then
      Attempt(c, ConversationKey(c, choice.a, choice.b).value, ciphertext)
    else ""
  }

  /** True when deriving the conversation key throws; this is the one exception
      that escapes to the outer handler of decryptMessage. */
  predicate DerivationThrows(c: Crypto, s: Option<string>, r: Option<string>)
  {
    Truthy(s) && Truthy(r) && ConversationKey(c, s.value, r.value).None?
  }

  /** `decryptMessage(encryptedMessage, privateKey, sender, recipient)`. */
  function DecryptMessage(c: Crypto, input: Option<string>, pk: string, s: Option<string>, r: Option<string>): (out: string)
    ensures out != ""
    ensures !Truthy(input) ==> out == InvalidMessage
    ensures Truthy(input) && DerivationThrows(c, s, r) ==> out == EncryptedPlaceholder
  {
    if !Truthy(input) then InvalidMessage
    else if DerivationThrows(c, s, r) then EncryptedPlaceholder
    else
      var ciphertext := input.value;
      var first := FirstAttempt(c, ciphertext, pk, s, r);
      var decrypted := if first == "" then Attempt(c, pk + c.secret, ciphertext) else first;
      if decrypted == "" then DecryptionFailed else decrypted
  }

  /** No decryption is attempted on an empty or missing input: the result does
      not depend on the cipher at all. */
  lemma DecryptIgnoresCipherOnInvalidInput(c1: Crypto, c2: Crypto, input: Option<string>, pk: string,
                                           s: Option<string>, r: Option<string>)
    requires !Truthy(input)
    ensures DecryptMessage(c1, input, pk, s, r) == DecryptMessage(c2, input, pk, s, r) == InvalidMessage
  {
  }

  /** A non-empty result of the conversation-key attempt is returned as is,
      whatever the private key would have given. */
  lemma ConversationResultWins(c: Crypto, ciphertext: string, pk1: string, pk2: string, s: Option<string>, r: Option<string>)
    requires ciphertext != ""
    requires FirstAttempt(c, ciphertext, pk1, s, r) != ""
    ensures DecryptMessage(c, Some(ciphertext), pk1, s, r) == FirstAttempt(c, ciphertext, pk1, s, r)
    ensures DecryptMessage(c, Some(ciphertext), pk1, s, r) == DecryptMessage(c, Some(ciphertext), pk2, s, r)
  {
  }

  /** The private-key attempt decides the result exactly when the first
      attempt was skipped or empty; both empty gives DecryptionFailed. */
  lemma FallbackToPrivateKey(c: Crypto, ciphertext: string, pk: string, s: Option<string>, r: Option<string>)
    requires ciphertext != "" && !DerivationThrows(c, s, r)
    requires FirstAttempt(c, ciphertext, pk, s, r) == ""
    ensures var second := Attempt(c, pk + c.secret, ciphertext);
      DecryptMessage(c, Some(ciphertext), pk, s, r) == if second == "" then DecryptionFailed else second
  {
  }

  /** Encrypting and decrypting with the same sender/recipient pairing, in
      either order, gives back a non-empty message. */
  lemma RoundTrip(c: Crypto, m: string, pk: string, s: Option<string>, r: Option<string>)
    requires Sound(c) && m != ""
    requires EncryptSucceeds(c, m, pk, s, r)
    ensures DecryptMessage(c, Some(EncryptMessage(c, m, pk, s, r)), pk, s, r) == m
    ensures DecryptMessage(c, Some(EncryptMessage(c, m, pk, s, r)), pk, r, s) == m
  {
    var key := KeyMaterial(c, ChooseKey(pk, s, r)).value;
    var e := EncryptMessage(c, m, pk, s, r);
    assert c.aesDecrypt(key, e) == Some(m);
    KeyChoiceSymmetric(c, pk, s, r);
    if Truthy(s) && Truthy(r) {
      ConversationKeySymmetric(c, s.value, r.value);
      assert FirstAttempt(c, e, pk, s, r) == m;
      assert FirstAttempt(c, e, pk, r, s) == m;
    }
  }

  /** An empty message encrypted without a conversation key decrypts to
      DecryptionFailed. */
  lemma EmptyMessageFails(c: Crypto, pk: string, s: Option<string>, r: Option<string>)
    requires Sound(c) && !(Truthy(s) && Truthy(r))
    requires EncryptSucceeds(c, "", pk, s, r)
    ensures DecryptMessage(c, Some(EncryptMessage(c, "", pk, s, r)), pk, s, r) == DecryptionFailed
  {
    var e := EncryptMessage(c, "", pk, s, r);
    assert c.aesDecrypt(pk + c.secret, e) == Some("");
  }

  /** The same with a conversation key: the private-key fallback runs on the
      ciphertext and its result, when non-empty, is returned instead. */
  lemma EmptyConversationMessage(c: Crypto, pk: string, s: Option<string>, r: Option<string>)
    requires Sound(c) && Truthy(s) && Truthy(r)
    requires EncryptSucceeds(c, "", pk, s, r)
    ensures var e := EncryptMessage(c, "", pk, s, r);
      var second := Attempt(c, pk + c.secret, e);
      DecryptMessage(c, Some(e), pk, s, r) == if second == "" then DecryptionFailed else second
  {
    var key := ConversationKey(c, s.value, r.value).value;
    var e := EncryptMessage(c, "", pk, s, r);
    assert c.aesDecrypt(key, e) == Some("");
  }
}
