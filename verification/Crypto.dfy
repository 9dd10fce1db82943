/**
 The encrypted column type, composed with the install-UUID protocol: what one process binds, another process reads.

 HKDF and Fernet are not modelled inside: `Suite` holds them as functions and `Sound` states what is assumed of them.
 The token's framing is modelled, because the column tells ciphertext from legacy plaintext by the text prefix that
 the framing produces: base64url (section 5 of RFC 4648) of 0x80, the 64-bit big-endian timestamp, then the body.
 */
module Crypto {
  import opened Wrappers
  import InstallUuid

  type Byte = n: int | 0 <= n < 256

  const FERNET_PREFIX := "gAAAAA"
  const VERSION: Byte := 0x80
  const TWO_36: nat := 0x10_0000_0000
  const TWO_64: nat := 0x1_0000_0000_0000_0000

  // ---------------------------------------------------------------------------------------------
  // Token framing
  // ---------------------------------------------------------------------------------------------

  function Base64Char(n: nat): char
    requires n < 64
  {
    if n < 26 then 'A' + n as char
    else if n < 52 then 'a' + (n - 26) as char
    else if n < 62 then '0' + (n - 52) as char
    else if n == 62 then '-'
    else '_'
  }

  /** Three bytes as four characters. */
  function Quad(a: Byte, b: Byte, c: Byte): string
  {
    [Base64Char(a / 4), Base64Char(a % 4 * 16 + b / 16), Base64Char(b % 16 * 4 + c / 64), Base64Char(c % 64)]
  }

  function Base64(bytes: seq<Byte>): string
  {
    if |bytes| == 0 then ""
    else if |bytes| == 1 then Quad(bytes[0], 0, 0)[..2] + "=="
    else if |bytes| == 2 then Quad(bytes[0], bytes[1], 0)[..3] + "="
    else Quad(bytes[0], bytes[1], bytes[2]) + Base64(bytes[3..])
  }

  function BigEndian64(t: nat): seq<Byte>
    requires t < TWO_64
  {
    [t / 0x100_0000_0000_0000, t / 0x1_0000_0000_0000 % 256, t / 0x100_0000_0000 % 256, t / 0x1_0000_0000 % 256,
     t / 0x100_0000 % 256, t / 0x1_0000 % 256, t / 0x100 % 256, t % 256]
  }

  /** The URL-safe alphabet of section 5 of RFC 4648: A to Z, a to z, 0 to 9, the hyphen and the underscore. */
  lemma Base64Alphabet(n: nat)
    requires n < 64
    ensures Base64Char(0) == 'A' && Base64Char(25) == 'Z' && Base64Char(26) == 'a' && Base64Char(51) == 'z'
    ensures Base64Char(52) == '0' && Base64Char(61) == '9' && Base64Char(62) == '-' && Base64Char(63) == '_'
    ensures n < 61 && n != 25 && n != 51 ==> Base64Char(n + 1) as int == Base64Char(n) as int + 1
  {}

  /** Four characters carry their three bytes, six bits each. */
  lemma QuadCarries(a: Byte, b: Byte, c: Byte) returns (w: nat, x: nat, y: nat, z: nat)
    ensures w < 64 && x < 64 && y < 64 && z < 64
    ensures Quad(a, b, c) == [Base64Char(w), Base64Char(x), Base64Char(y), Base64Char(z)]
    ensures w * 0x4_0000 + x * 0x1000 + y * 0x40 + z == a * 0x1_0000 + b * 0x100 + c
  {
    w, x, y, z := a / 4, a % 4 * 16 + b / 16, b % 16 * 4 + c / 64, c % 64;
  }

  /** Three bytes become a quad; one or two at the end are filled with zeros, and what those carry alone becomes `=`. */
  lemma Base64Groups(a: Byte, b: Byte, c: Byte, rest: seq<Byte>)
    ensures Base64([]) == ""
    ensures Base64([a]) == Quad(a, 0, 0)[..2] + "==" && Base64([a, b]) == Quad(a, b, 0)[..3] + "="
    ensures Base64([a, b, c] + rest) == Quad(a, b, c) + Base64(rest)
  {
    assert ([a, b, c] + rest)[3..] == rest;
  }

  /** The eight bytes spell the number. */
  lemma BigEndianSpells(t: nat)
    requires t < TWO_64
    ensures var b := BigEndian64(t);
            && |b| == 8
            && ((((((b[0] as int * 256 + b[1]) * 256 + b[2]) * 256 + b[3]) * 256 + b[4]) * 256 + b[5]) * 256
                + b[6]) * 256 + b[7] == t
  {
    assert t / 0x1_0000 == t / 0x100 / 256;
    assert t / 0x100_0000 == t / 0x1_0000 / 256;
    assert t / 0x1_0000_0000 == t / 0x100_0000 / 256;
    assert t / 0x100_0000_0000 == t / 0x1_0000_0000 / 256;
    assert t / 0x1_0000_0000_0000 == t / 0x100_0000_0000 / 256;
    assert t / 0x100_0000_0000_0000 == t / 0x1_0000_0000_0000 / 256;
  }

  function Frame(timestamp: nat, body: seq<Byte>): seq<Byte>
    requires timestamp < TWO_64
  {
    [VERSION] + BigEndian64(timestamp) + body
  }

  function Token(timestamp: nat, body: seq<Byte>): string
    requires timestamp < TWO_64
  {
    Base64(Frame(timestamp, body))
  }

  predicate StartsWith(s: string, prefix: string)
  {
    |prefix| <= |s| && s[..|prefix|] == prefix
  }

  lemma FirstChar(n: nat)
    requires n < 64
    ensures Base64Char(n) == 'A' <==> n == 0
    ensures Base64Char(n) == 'g' <==> n == 32
  {
    if 26 <= n < 52 {
      assert Base64Char(n) as int == 'a' as int + (n - 26);
    } else if 52 <= n < 62 {
      assert Base64Char(n) as int == '0' as int + (n - 52);
    } else if n < 26 {
      assert Base64Char(n) as int == 'A' as int + n;
    }
  }

  lemma SmallTimestamp(t: nat)
    requires t < TWO_64
    ensures var b := BigEndian64(t); (t < TWO_36 <==> b[0] == 0 && b[1] == 0 && b[2] == 0 && b[3] < 16)
  {
    var hi := t / 0x1_0000_0000;
    assert t / 0x100_0000_0000 == hi / 0x100 && t / 0x1_0000_0000_0000 == hi / 0x1_0000
        && t / 0x100_0000_0000_0000 == hi / 0x100_0000;
  }

  lemma FirstSixChars(timestamp: nat, body: seq<Byte>)
    requires timestamp < TWO_64
    ensures var b, token := BigEndian64(timestamp), Token(timestamp, body);
            |token| >= 6 && token[..6] == Quad(VERSION, b[0], b[1]) + Quad(b[2], b[3], b[4])[..2]
  {
    var bytes := [VERSION] + BigEndian64(timestamp) + body;
    var b := BigEndian64(timestamp);
    assert bytes[0] == VERSION && bytes[1] == b[0] && bytes[2] == b[1];
    var rest := bytes[3..];
    assert rest[0] == b[2] && rest[1] == b[3] && rest[2] == b[4];
    assert bytes == Frame(timestamp, body);
    assert Base64(bytes) == Quad(VERSION, b[0], b[1]) + (Quad(b[2], b[3], b[4]) + Base64(rest[3..]));
  }

  lemma PrefixBytes(a: Byte, b: Byte, c: Byte, d: Byte, e: Byte)
    ensures Quad(VERSION, a, b) + Quad(c, d, e)[..2] == FERNET_PREFIX <==> a == b == c == 0 && d < 16
  {
    var six := Quad(VERSION, a, b) + Quad(c, d, e)[..2];
    assert VERSION / 4 == 32 && VERSION % 4 == 0;
    assert six == [Base64Char(32), Base64Char(a / 16), Base64Char(a % 16 * 4 + b / 64), Base64Char(b % 64),
                   Base64Char(c / 4), Base64Char(c % 4 * 16 + d / 16)];
    FirstChar(32);
    FirstChar(a / 16);
    FirstChar(a % 16 * 4 + b / 64);
    FirstChar(b % 64);
    FirstChar(c / 4);
    FirstChar(c % 4 * 16 + d / 16);
    assert FERNET_PREFIX == ['g', 'A', 'A', 'A', 'A', 'A'];
  }

  /** A token carries the prefix the column looks for exactly while its timestamp is below 2^36. */
  lemma TokenHasPrefix(timestamp: nat, body: seq<Byte>)
    requires timestamp < TWO_64
    ensures StartsWith(Token(timestamp, body), FERNET_PREFIX) <==> timestamp < TWO_36
  {
    var b := BigEndian64(timestamp);
    FirstSixChars(timestamp, body);
    PrefixBytes(b[0], b[1], b[2], b[3], b[4]);
    SmallTimestamp(timestamp);
  }

  // ---------------------------------------------------------------------------------------------
  // Keys and tokens
  // ---------------------------------------------------------------------------------------------

  type Key = seq<Byte>

  /**
   HKDF from the UUID text to a key; the body Fernet seals (IV, ciphertext, HMAC); base64 decoding, which may be lenient
   about foreign characters; and Fernet's opening of decoded bytes.
   */
  datatype Suite = Suite(derive: string -> Key,
                         seal: (Key, nat, seq<Byte>, string) -> seq<Byte>,
                         decode: string -> Option<seq<Byte>>,
                         open: (Key, seq<Byte>) -> Option<string>)

  /** Decrypting a token's text. */
  function Unseal(suite: Suite, key: Key, text: string): Option<string>
  {
    match suite.decode(text)
    case None => None
    case Some(bytes) => suite.open(key, bytes)
  }

  /** These bytes are a token of `plain` under `key`. */
  predicate Seals(suite: Suite, key: Key, t: nat, iv: seq<Byte>, plain: string, bytes: seq<Byte>)
  {
    t < TWO_64 && bytes == Frame(t, suite.seal(key, t, iv, plain))
  }

  /**
   What is assumed: decoding a token undoes its encoding, and never yields more bytes than the text has characters; a
   body is at least as long as its plaintext; a key opens what it sealed and, Fernet being authenticated, nothing else.
   */
  ghost predicate Sound(suite: Suite)
  {
    && (forall t: nat, body: seq<Byte> :: t < TWO_64 ==> suite.decode(Token(t, body)) == Some(Frame(t, body)))
    && (forall text: string :: suite.decode(text).Some? ==> |suite.decode(text).value| <= |text|)
    && (forall key: Key, t: nat, iv: seq<Byte>, plain: string :: t < TWO_64 ==>
          && |suite.seal(key, t, iv, plain)| >= |plain|
          && suite.open(key, Frame(t, suite.seal(key, t, iv, plain))) == Some(plain))
    && (forall key: Key, bytes: seq<Byte> :: suite.open(key, bytes).Some? ==>
          exists t: nat, iv: seq<Byte> :: Seals(suite, key, t, iv, suite.open(key, bytes).value, bytes))
  }

  /** A text that decrypts is a token of its plaintext, and longer than it. */
  lemma OpensOnlyTokens(suite: Suite, key: Key, text: string)
    requires Sound(suite) && Unseal(suite, key, text).Some?
    ensures var plain, bytes := Unseal(suite, key, text).value, suite.decode(text).value;
            && (exists t: nat, iv: seq<Byte> :: Seals(suite, key, t, iv, plain, bytes))
            && |plain| < |text|
  {
    var plain, bytes := Unseal(suite, key, text).value, suite.decode(text).value;
    var t: nat, iv: seq<Byte> :| Seals(suite, key, t, iv, plain, bytes);
    assert |bytes| == 9 + |suite.seal(key, t, iv, plain)|;
  }

  datatype Error = NoInstallUuid | InvalidToken

  /** `_derive_key` in a process whose `get_install_uuid` call ended at `caller`. */
  function DeriveKey(suite: Suite, caller: InstallUuid.Pc): Result<Key, Error>
  {
    if caller.Returned? && caller.uuid != "" then Success(suite.derive(caller.uuid)) else Failure(NoInstallUuid)
  }

  /** `encrypt_token`; the clock and the random IV are parameters. */
  function EncryptToken(suite: Suite, caller: InstallUuid.Pc, now: nat, iv: seq<Byte>, plain: string)
    : Result<string, Error>
    requires now < TWO_64
  {
    if plain == "" then Success(plain)
    else match DeriveKey(suite, caller)
      case Failure(e) => Failure(e)
      case Success(key) => Success(Token(now, suite.seal(key, now, iv, plain)))
  }

  function DecryptToken(suite: Suite, caller: InstallUuid.Pc, text: string): Result<string, Error>
  {
    if text == "" then Success(text)
    else match DeriveKey(suite, caller)
      case Failure(e) => Failure(e)
      case Success(key) =>
        (match Unseal(suite, key, text) case Some(p) => Success(p) case None => Failure(InvalidToken))
  }

  // ---------------------------------------------------------------------------------------------
  // The column type; None is SQL NULL
  // ---------------------------------------------------------------------------------------------

  function ProcessBindParam(suite: Suite, caller: InstallUuid.Pc, now: nat, iv: seq<Byte>, value: Option<string>)
    : Result<Option<string>, Error>
    requires now < TWO_64
  {
    if value.None? || value.value == "" then Success(value)
    else match EncryptToken(suite, caller, now, iv, value.value)
      case Success(token) => Success(Some(token))
      case Failure(e) => Failure(e)
  }

  function ProcessResultValue(suite: Suite, caller: InstallUuid.Pc, stored: Option<string>)
    : Result<Option<string>, Error>
  {
    if stored.None? || stored.value == "" then Success(stored)
    else if !StartsWith(stored.value, FERNET_PREFIX) then Success(stored)
    else match DecryptToken(suite, caller, stored.value)
      case Success(plain) => Success(Some(plain))
      case Failure(InvalidToken) => Success(None)
      case Failure(e) => Failure(e)
  }

  /** What a reader process sees of a value a writer process bound. */
  function ReadBack(suite: Suite, writer: InstallUuid.Pc, reader: InstallUuid.Pc, now: nat, iv: seq<Byte>,
                    value: Option<string>)
    : Result<Option<string>, Error>
    requires now < TWO_64
  {
    match ProcessBindParam(suite, writer, now, iv, value)
    case Failure(e) => Failure(e)
    case Success(stored) => ProcessResultValue(suite, reader, stored)
  }

  // ---------------------------------------------------------------------------------------------
  // Theorems
  // ---------------------------------------------------------------------------------------------

  /**
   Binding NULL or the empty text stores it as it is. Any other value is never stored in the clear: without a UUID the
   bind fails, and otherwise a token is stored that this UUID's key sealed from the value.
   */
  lemma BindNeverStoresPlaintext(suite: Suite, caller: InstallUuid.Pc, now: nat, iv: seq<Byte>, value: Option<string>)
    requires Sound(suite) && now < TWO_64
    ensures value == None || value == Some("") ==> ProcessBindParam(suite, caller, now, iv, value) == Success(value)
    ensures value != None && value != Some("") ==>
              var bound := ProcessBindParam(suite, caller, now, iv, value);
              && (bound == Failure(NoInstallUuid) <==> !caller.Returned? || caller.uuid == "")
              && (bound.Failure? ==> bound.error == NoInstallUuid)
              && (bound.Success? ==>
                    && bound.value.Some? && bound.value != value
                    && bound.value.value == Token(now, suite.seal(suite.derive(caller.uuid), now, iv, value.value))
                    && suite.decode(bound.value.value).Some?
                    && Seals(suite, suite.derive(caller.uuid), now, iv, value.value,
                             suite.decode(bound.value.value).value))
  {
    if value != None && value != Some("") && caller.Returned? && caller.uuid != "" {
      var key := suite.derive(caller.uuid);
      var body := suite.seal(key, now, iv, value.value);
      assert suite.decode(Token(now, body)) == Some(Frame(now, body));
      assert |suite.decode(Token(now, body)).value| <= |Token(now, body)|;
      assert Token(now, body) != value.value;
    }
  }

  /** The empty text is neither encrypted nor decrypted, and needs no key. */
  lemma EmptyNeedsNoKey(suite: Suite, caller: InstallUuid.Pc, now: nat, iv: seq<Byte>)
    requires now < TWO_64
    ensures EncryptToken(suite, caller, now, iv, "") == Success("") && DecryptToken(suite, caller, "") == Success("")
    ensures forall text :: text != "" && !caller.Returned? ==>
              DecryptToken(suite, caller, text) == Failure(NoInstallUuid)
  {}

  /**
   Reading NULL, the empty text or a text without the token prefix needs no key and returns it as it is, whoever reads;
   a text with the prefix is not read without a UUID.
   */
  lemma ReadWithoutKey(suite: Suite, reader: InstallUuid.Pc, stored: Option<string>)
    ensures stored == None || stored == Some("") || !StartsWith(stored.value, "gAAAAA") ==>
              ProcessResultValue(suite, reader, stored) == Success(stored)
    ensures stored != None && StartsWith(stored.value, "gAAAAA") && (!reader.Returned? || reader.uuid == "") ==>
              ProcessResultValue(suite, reader, stored) == Failure(NoInstallUuid)
  {}

  /**
   In any schedule of the install-UUID protocol, a process binds a non-empty value only if its call returned, and then
   it stores a token sealed under the one UUID that is in the file.
   */
  lemma BoundUnderTheInstallKey(suite: Suite, w0: InstallUuid.World, schedule: InstallUuid.Schedule, writer: nat,
                                now: nat, iv: seq<Byte>, value: string)
    requires Sound(suite) && now < TWO_64 && value != ""
    requires InstallUuid.Initial(w0) && InstallUuid.Run(w0, schedule).Some?
    requires writer < |InstallUuid.Run(w0, schedule).value.pcs|
    ensures var w := InstallUuid.Run(w0, schedule).value;
            var bound := ProcessBindParam(suite, w.pcs[writer], now, iv, Some(value));
            if w.pcs[writer].Returned? then
              && InstallUuid.ReadOutcome(w.file).Some?
              && bound == Success(Some(Token(now,
                            suite.seal(suite.derive(InstallUuid.ReadOutcome(w.file).value), now, iv, value))))
              && bound != Success(Some(value))
            else bound == Failure(NoInstallUuid)
  {
    InstallUuid.RunKeepsInv(w0, schedule);
    InstallUuid.CallersAgree(w0, schedule, writer, writer);
    var w := InstallUuid.Run(w0, schedule).value;
    BindNeverStoresPlaintext(suite, w.pcs[writer], now, iv, Some(value));
  }

  lemma RoundTripWithOneKey(suite: Suite, writer: InstallUuid.Pc, reader: InstallUuid.Pc, now: nat, iv: seq<Byte>,
                            value: Option<string>)
    requires Sound(suite) && now < TWO_64
    requires writer.Returned? && reader.Returned? && writer.uuid == reader.uuid != ""
    ensures ReadBack(suite, writer, reader, now, iv, value) == Success(value)
       <==> value.None? || value.value == "" || now < TWO_36
  {
    if value.Some? && value.value != "" {
      var key := suite.derive(writer.uuid);
      var body := suite.seal(key, now, iv, value.value);
      var token := Token(now, body);
      TokenHasPrefix(now, body);
      assert Seals(suite, key, now, iv, value.value, Frame(now, body));
      assert Unseal(suite, key, token) == Some(value.value);
      OpensOnlyTokens(suite, key, token);
    }
  }

  /**
   In any schedule of the install-UUID protocol, a value bound in one process is read back unchanged in every other,
   exactly when it is empty or the token's timestamp is below 2^36.
   */
  lemma BoundValueIsReadBackEverywhere(suite: Suite, w0: InstallUuid.World, schedule: InstallUuid.Schedule,
                                       writer: nat, reader: nat, now: nat, iv: seq<Byte>, value: Option<string>)
    requires Sound(suite) && now < TWO_64
    requires InstallUuid.Initial(w0) && InstallUuid.Run(w0, schedule).Some?
    requires var w := InstallUuid.Run(w0, schedule).value;
             && writer < |w.pcs| && w.pcs[writer].Returned?
             && reader < |w.pcs| && w.pcs[reader].Returned?
    ensures var w := InstallUuid.Run(w0, schedule).value;
            ReadBack(suite, w.pcs[writer], w.pcs[reader], now, iv, value) == Success(value)
            <==> value.None? || value.value == "" || now < TWO_36
  {
    InstallUuid.RunKeepsInv(w0, schedule);
    InstallUuid.CallersAgree(w0, schedule, writer, reader);
    var w := InstallUuid.Run(w0, schedule).value;
    RoundTripWithOneKey(suite, w.pcs[writer], w.pcs[reader], now, iv, value);
  }

  /**
   A row that looks like a token yields the plaintext that this install's key sealed in it, or NULL, and never the
   stored text itself; without a UUID the configuration error comes through instead of being masked as NULL.
   */
  lemma TokenShapedRow(suite: Suite, reader: InstallUuid.Pc, text: string)
    requires Sound(suite) && StartsWith(text, FERNET_PREFIX)
    ensures ProcessResultValue(suite, reader, Some(text)) != Success(Some(text))
    ensures match ProcessResultValue(suite, reader, Some(text))
            case Failure(e) => e == NoInstallUuid && !(reader.Returned? && reader.uuid != "")
            case Success(None) => Unseal(suite, suite.derive(reader.uuid), text) == None
            case Success(Some(plain)) =>
              && |plain| < |text| && suite.decode(text).Some?
              && exists t: nat, iv: seq<Byte> ::
                   Seals(suite, suite.derive(reader.uuid), t, iv, plain, suite.decode(text).value)
  {
    if DeriveKey(suite, reader).Success? && Unseal(suite, suite.derive(reader.uuid), text).Some? {
      OpensOnlyTokens(suite, suite.derive(reader.uuid), text);
    }
  }

  /**
   Plaintext stored before encryption was enabled is read unchanged exactly when it does not look like a token, and
   saving what was read turns it into a token that reads the same.
   */
  lemma LegacyPlaintextUpgrades(suite: Suite, caller: InstallUuid.Pc, now: nat, iv: seq<Byte>, text: string)
    requires Sound(suite) && now < TWO_36
    requires caller.Returned? && caller.uuid != "" && text != ""
    ensures ProcessResultValue(suite, caller, Some(text)) == Success(Some(text)) <==> !StartsWith(text, FERNET_PREFIX)
    ensures ReadBack(suite, caller, caller, now, iv, Some(text)) == Success(Some(text))
    ensures var saved := ProcessBindParam(suite, caller, now, iv, Some(text)).value;
            saved.Some? && StartsWith(saved.value, FERNET_PREFIX)
  {
    if StartsWith(text, FERNET_PREFIX) { TokenShapedRow(suite, caller, text); }
    RoundTripWithOneKey(suite, caller, caller, now, iv, Some(text));
    TokenHasPrefix(now, suite.seal(suite.derive(caller.uuid), now, iv, text));
  }
}
