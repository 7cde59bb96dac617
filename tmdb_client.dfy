/**
 * The id obfuscation of lib/tmdb-client.ts: an upstream numeric id is written in decimal, each
 * character is XORed with the secret (cycled by index), and the bytes are written in base64url.
 * Decoding runs the same steps backwards and ends with `parseInt`. A JSON walk replaces the
 * numeric `id`, `movie_id`, `tv_id` and `series_id` fields of a response by such tokens, except
 * inside `genres`.
 */
module TmdbClient {
  import opened Wrappers
  import opened Text
  import Base64Url

  /** A UTF-16 code unit, what `charCodeAt` returns. */
  type CodeUnit = u: int | 0 <= u < 0x10000

  /** The secret as `charCodeAt` sees it; the module refuses to load with an empty one. */
  type Secret = s: seq<CodeUnit> | |s| > 0 witness [0]

  function Pow2(n: nat): nat {
    if n == 0 then 1 else 2 * Pow2(n - 1)
  }

  lemma Pow2Facts()
    ensures Pow2(8) == 0x100 && Pow2(16) == 0x10000
  {
    assert Pow2(4) == 16;
    assert Pow2(8) == 0x100;
    assert Pow2(12) == 0x1000;
  }

  /** Bitwise XOR of two non-negative integers, the `^` of the source on code units. */
  function Xor(a: nat, b: nat): nat
    decreases a + b
  {
    if a == 0 && b == 0 then 0 else Xor(a / 2, b / 2) * 2 + (if a % 2 == b % 2 then 0 else 1)
  }

  /** XOR keeps values of `n` bits within `n` bits. */
  lemma {:induction false} XorBound(a: nat, b: nat, n: nat)
    requires a < Pow2(n) && b < Pow2(n)
    ensures Xor(a, b) < Pow2(n)
    decreases n
  {
    if n > 0 && !(a == 0 && b == 0) {
      XorBound(a / 2, b / 2, n - 1);
    }
  }

  /** Setting a bit above all the bits of `a` adds it. */
  lemma {:induction false} XorHighBit(a: nat, n: nat)
    requires a < Pow2(n)
    ensures Xor(a, Pow2(n)) == a + Pow2(n)
  {
    if n > 0 {
      XorHighBit(a / 2, n - 1);
    }
  }

  /** XOR with the same key twice gives the value back. */
  lemma {:induction false} XorXor(a: nat, b: nat)
    ensures Xor(Xor(a, b), b) == a
    decreases a + b
  {
    if !(a == 0 && b == 0) {
      var c := Xor(a, b);
      XorXor(a / 2, b / 2);
      assert c / 2 == Xor(a / 2, b / 2);
      assert c % 2 == (if a % 2 == b % 2 then 0 else 1);
    }
  }

  /** The code units of a string: code points above 0xFFFF become a surrogate pair. */
  function Utf16(s: string): (r: seq<CodeUnit>)
    ensures |r| >= |s|
  {
    if s == [] then []
    else
      var c := s[0] as int;
      (if c < 0x10000 then [c] else [0xD800 + (c - 0x10000) / 0x400, 0xDC00 + (c - 0x10000) % 0x400])
      + Utf16(s[1..])
  }

  datatype ConfigError = ApiKeyMissing | SecretMissing

  /** Loading the module: the API key is checked first, then `ID_SECRET || ""`; an absent or
      empty value throws. */
  function LoadSecret(apiKey: Option<string>, idSecret: Option<string>): (r: Result<Secret, ConfigError>)
    ensures r.Success? <==> apiKey.Some? && apiKey.value != "" && idSecret.Some? && idSecret.value != ""
    ensures r == Failure(SecretMissing) ==> apiKey.Some? && apiKey.value != ""
    ensures r.Success? ==> r.value == Utf16(idSecret.value)
  {
    if apiKey.None? || apiKey.value == "" then Failure(ApiKeyMissing)
    else
      var secret := idSecret.GetOr("");
      if secret == "" then Failure(SecretMissing) else Success(Utf16(secret))
  }

  /** The code unit of a character of an id's decimal text. */
  function Unit(c: char): CodeUnit
    requires c == '-' || IsDigit(c)
  {
    c as int
  }

  /** The secret's code unit used at position `i`. */
  function KeyAt(secret: Secret, i: nat): CodeUnit {
    secret[i % |secret|]
  }

  /** What the encrypting loop pushes: each character XOR the secret at that position. */
  function Xored(text: string, secret: Secret): (r: seq<CodeUnit>)
    requires forall k :: 0 <= k < |text| ==> text[k] == '-' || IsDigit(text[k])
    ensures |r| == |text|
  {
    seq(|text|, i requires 0 <= i < |text| => XorUnits(Unit(text[i]), KeyAt(secret, i)))
  }

  /** `u ^ k` on two code units. */
  function XorUnits(u: CodeUnit, k: CodeUnit): CodeUnit {
    Pow2Facts();
    XorBound(u, k, 16);
    Xor(u, k)
  }

  /** `Buffer.from(array)` keeps the low byte of each value. */
  function LowBytes(units: seq<CodeUnit>): (r: seq<Base64Url.Byte>)
    ensures |r| == |units|
  {
    seq(|units|, i requires 0 <= i < |units| => units[i] % 0x100)
  }

  /** The bytes a token carries for `id`: one per character of its decimal text. */
  function Payload(id: int, secret: Secret): (r: seq<Base64Url.Byte>)
    ensures |r| == |IntToString(id)|
  {
    LowBytes(Xored(IntToString(id), secret))
  }

  /** `xorEncrypt(id, secret)`, which `obfuscateId` applies with the loaded secret. */
  function Encrypted(id: int, secret: Secret): (token: string)
    ensures |token| == (4 * |IntToString(id)| + 2) / 3
    ensures Base64Url.Decode(token) == Some(Payload(id, secret))
  {
    Base64Url.DecodeEncode(Payload(id, secret));
    Base64Url.Encode(Payload(id, secret))
  }

  /** `String.fromCharCode(u)`. A lone surrogate is not a Dafny character; it stands here as
      U+FFFD, which `parseInt` treats alike (neither whitespace, sign nor digit). */
  function UnitChar(u: CodeUnit): char {
    if 0xD800 <= u < 0xE000 then '\U{FFFD}' else u as char
  }

  /** The text the decrypting loop builds from the decoded bytes. */
  function Unmasked(bytes: seq<Base64Url.Byte>, secret: Secret): (r: string)
    ensures |r| == |bytes|
  {
    seq(|bytes|, i requires 0 <= i < |bytes| => UnitChar(XorUnits(bytes[i], KeyAt(secret, i))))
  }

  /** What decoding a token yields: an id, `parseInt`'s NaN, or the error thrown as
      "Invalid encrypted ID format". There is no default id. */
  datatype Decoded = Id(value: int) | NotANumber | InvalidFormat

  /** `xorDecrypt(token, secret)`, which `deobfuscateId` applies with the loaded secret. */
  function Decrypted(token: string, secret: Secret): (r: Decoded)
    ensures r.InvalidFormat? <==> Base64Url.Decode(token).None?
    ensures r.NotANumber? <==>
      Base64Url.Decode(token).Some? && ParseInt(Unmasked(Base64Url.Decode(token).value, secret)).None?
    ensures r.Id? ==> ParseInt(Unmasked(Base64Url.Decode(token).value, secret)) == Some(r.value)
  {
    match Base64Url.Decode(token)
    case None => InvalidFormat
    case Some(bytes) =>
      match ParseInt(Unmasked(bytes, secret))
      case None => NotANumber
      case Some(n) => Id(n)
  }

  /** The encrypting loop of `xorEncrypt`. */
  method XorEncrypt(id: int, secret: Secret) returns (token: string)
    ensures token == Base64Url.Encode(Payload(id, secret))
    ensures Base64Url.Decode(token) == Some(Payload(id, secret))
  {
    var idStr := IntToString(id);
    var encryptedBytes: seq<CodeUnit> := [];
    for i := 0 to |idStr|
      invariant encryptedBytes == Xored(idStr, secret)[..i]
    {
      var charCode := Unit(idStr[i]);
      var secretChar := secret[i % |secret|];
      encryptedBytes := encryptedBytes + [XorUnits(charCode, secretChar)];
    }
    assert encryptedBytes == Xored(idStr, secret);
    token := Base64Url.Encode(LowBytes(encryptedBytes));
    Base64Url.DecodeEncode(Payload(id, secret));
  }

  /** The decrypting loop of `xorDecrypt`. */
  method XorDecrypt(encryptedId: string, secret: Secret) returns (r: Decoded)
    ensures r == Decrypted(encryptedId, secret)
    ensures r.InvalidFormat? <==> Base64Url.Decode(encryptedId).None?
  {
    var decoded := Base64Url.Decode(encryptedId);
    if decoded.None? {
      return InvalidFormat;
    }
    var encryptedBytes := decoded.value;
    var decrypted := "";
    for i := 0 to |encryptedBytes|
      invariant decrypted == Unmasked(encryptedBytes, secret)[..i]
    {
      var encryptedChar := encryptedBytes[i];
      var secretChar := secret[i % |secret|];
      decrypted := decrypted + [UnitChar(XorUnits(encryptedChar, secretChar))];
    }
    assert decrypted == Unmasked(encryptedBytes, secret);
    match ParseInt(decrypted)
    case None => r := NotANumber;
    case Some(n) => r := Id(n);
  }

  /** Every code unit of the secret fits in a byte. */
  predicate ByteSecret(secret: Secret) {
    forall k :: 0 <= k < |secret| ==> secret[k] < 0x100
  }

  /** XOR with a byte-sized key, cut to a byte, and XOR again with the key gives a byte back. */
  lemma XorLowByte(d: CodeUnit, k: CodeUnit)
    requires d < 0x100 && k < 0x100
    ensures XorUnits(XorUnits(d, k) % 0x100, k) == d
  {
    var c := XorUnits(d, k);
    assert c < 0x100 by {
      Pow2Facts();
      XorBound(d, k, 8);
    }
    assert c % 0x100 == c;
    XorXor(d, k);
  }

  /** Undoing the mask of an id's text gives that text back. */
  lemma UnmaskPayload(id: int, secret: Secret)
    requires ByteSecret(secret)
    ensures Unmasked(Payload(id, secret), secret) == IntToString(id)
  {
    var text := IntToString(id);
    var bytes := Payload(id, secret);
    forall i | 0 <= i < |text|
      ensures Unmasked(bytes, secret)[i] == text[i]
    {
      XorLowByte(Unit(text[i]), KeyAt(secret, i));
    }
  }

  /** Round trip: decoding a token gives back the id, for every integer id and every secret whose
      code units are below 256. */
  lemma DecryptEncrypt(id: int, secret: Secret)
    requires ByteSecret(secret)
    ensures Decrypted(Encrypted(id, secret), secret) == Id(id)
  {
    Base64Url.DecodeEncode(Payload(id, secret));
    UnmaskPayload(id, secret);
    ParseIntToString(id);
  }

  /** The byte-range condition is needed: with the secret U+0100 the id 5 comes back as the text
      "ĵ", which `parseInt` reads as NaN. */
  lemma WideSecretLosesId()
    ensures Decrypted(Encrypted(5, [0x100]), [0x100]) == NotANumber
  {
    var bytes := Payload(5, [0x100]);
    assert XorUnits(0x35, 0x100) == 0x135 by {
      Pow2Facts();
      XorHighBit(0x35, 8);
    }
    var text := IntToString(5);
    assert text == ['5'] by {
      assert DigitChar(5) == '5';
    }
    var units := Xored(text, [0x100]);
    assert units == [0x135] by {
      assert |units| == 1 && units[0] == XorUnits(Unit('5'), KeyAt([0x100], 0));
    }
    assert bytes == [0x35] by {
      assert bytes == LowBytes(units);
      assert |bytes| == 1 && bytes[0] == 0x135 % 0x100;
    }
    assert Unmasked(bytes, [0x100]) == ['\U{0135}'];
    Base64Url.DecodeEncode(bytes);
  }

  /** A JSON value as `JSON.parse` returns it. Numbers are integers here; an object is its
      entries in order, as `Object.entries` lists them. */
  datatype Json =
    | JNull
    | JBool(b: bool)
    | JNumber(n: int)
    | JString(s: string)
    | JArray(items: seq<Json>)
    | JObject(fields: seq<(string, Json)>)

  /** The field names whose numeric values are replaced by tokens. */
  predicate IsIdKey(key: string) {
    key == "id" || key == "movie_id" || key == "tv_id" || key == "series_id"
  }

  function Keys(fields: seq<(string, Json)>): seq<string> {
    seq(|fields|, i requires 0 <= i < |fields| => fields[i].0)
  }

  /** `obfuscateIdsInObject`: arrays are mapped element by element; in an object a numeric
      id field becomes its token, `genres` is copied as it is and every other field is rewritten
      recursively; anything else comes back unchanged. */
  function ObfuscateIds(j: Json, secret: Secret): (r: Json)
    ensures !j.JArray? && !j.JObject? ==> r == j
    ensures j.JArray? ==> r.JArray? && |r.items| == |j.items|
    ensures j.JArray? ==> forall i :: 0 <= i < |j.items| ==> r.items[i] == ObfuscateIds(j.items[i], secret)
    ensures j.JObject? ==> r.JObject? && Keys(r.fields) == Keys(j.fields)
    decreases j
  {
    match j
    case JArray(items) =>
      JArray(seq(|items|, i requires 0 <= i < |items| => ObfuscateIds(items[i], secret)))
    case JObject(fields) =>
      JObject(seq(|fields|, i requires 0 <= i < |fields| =>
        var (key, value) := fields[i];
        if IsIdKey(key) && value.JNumber? then (key, JString(Encrypted(value.n, secret)))
        else if key == "genres" then (key, value)
        else (key, ObfuscateIds(value, secret))))
    case _ => j
  }

  /** Field by field: what each entry of an object becomes. */
  lemma ObfuscatedField(fields: seq<(string, Json)>, secret: Secret, i: nat)
    requires i < |fields|
    ensures var r := ObfuscateIds(JObject(fields), secret).fields;
      && r[i].0 == fields[i].0
      && (IsIdKey(fields[i].0) && fields[i].1.JNumber? ==>
            r[i].1 == JString(Encrypted(fields[i].1.n, secret)))
      && (fields[i].0 == "genres" ==> r[i].1 == fields[i].1)
      && (!(IsIdKey(fields[i].0) && fields[i].1.JNumber?) && fields[i].0 != "genres" ==>
            r[i].1 == ObfuscateIds(fields[i].1, secret))
  {
  }

  /** No id field outside a `genres` subtree holds a number. */
  predicate NoPlainIds(j: Json)
    decreases j
  {
    match j
    case JArray(items) => forall i :: 0 <= i < |items| ==> NoPlainIds(items[i])
    case JObject(fields) =>
      forall i :: 0 <= i < |fields| ==>
        && !(IsIdKey(fields[i].0) && fields[i].1.JNumber?)
        && (fields[i].0 == "genres" || NoPlainIds(fields[i].1))
    case _ => true
  }

  /** After one pass no id field outside `genres` holds a number. */
  lemma {:induction false} ObfuscatedHasNoPlainIds(j: Json, secret: Secret)
    ensures NoPlainIds(ObfuscateIds(j, secret))
    decreases j
  {
    match j
    case JArray(items) =>
      forall i | 0 <= i < |items|
        ensures NoPlainIds(ObfuscateIds(items[i], secret))
      {
        ObfuscatedHasNoPlainIds(items[i], secret);
      }
    case JObject(fields) =>
      forall i | 0 <= i < |fields| && fields[i].0 != "genres"
        ensures NoPlainIds(ObfuscateIds(fields[i].1, secret))
      {
        ObfuscatedHasNoPlainIds(fields[i].1, secret);
      }
    case _ =>
  }

  /** The rewrite is idempotent: tokens are strings, which pass through unchanged. */
  lemma {:induction false} ObfuscateIdempotent(j: Json, secret: Secret)
    ensures ObfuscateIds(ObfuscateIds(j, secret), secret) == ObfuscateIds(j, secret)
    decreases j
  {
    match j
    case JArray(items) =>
      var once := ObfuscateIds(j, secret);
      forall i | 0 <= i < |items|
        ensures ObfuscateIds(once.items[i], secret) == once.items[i]
      {
        ObfuscateIdempotent(items[i], secret);
      }
    case JObject(fields) =>
      var once := ObfuscateIds(j, secret);
      var twice := ObfuscateIds(once, secret);
      forall i | 0 <= i < |fields|
        ensures twice.fields[i] == once.fields[i]
      {
        if !(IsIdKey(fields[i].0) && fields[i].1.JNumber?) && fields[i].0 != "genres" {
          ObfuscateIdempotent(fields[i].1, secret);
        }
      }
    case _ =>
  }

  /** A TMDB-shaped object with a genre list: `id` and `movie_id` become tokens while the genre
      id 7 stays a number. */
  lemma GenreIdsStayNumeric(secret: Secret)
    ensures var r := ObfuscateIds(JObject([
        ("id", JNumber(42)),
        ("genres", JArray([JObject([("id", JNumber(7)), ("name", JString("Action"))])])),
        ("movie_id", JNumber(99))]), secret);
      && r.fields[0] == ("id", JString(Encrypted(42, secret)))
      && r.fields[1].1.items[0].fields[0] == ("id", JNumber(7))
      && r.fields[2] == ("movie_id", JString(Encrypted(99, secret)))
  {
  }
}
