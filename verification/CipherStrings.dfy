/** Bitwarden cipher strings `2.iv|ciphertext|mac` (internal/provider/bitwarden_crypto.go). */
module CipherStrings {
  import opened Wrappers
  import opened Base64
  import opened Ciphers
  import opened GoStrings

  datatype CipherString = CipherString(encType: string, iv: seq<byte>, ciphertext: seq<byte>, mac: seq<byte>)

  datatype CryptoError =
    | MissingTypeSeparator
    | UnsupportedType(encType: string)
    | MissingCiphertext
    | CorruptIV
    | CorruptCiphertext
    | CorruptMAC
    | MACMismatch
    | KeySize(size: nat)
    | NotBlockMultiple
    | BadPadding(cause: PaddingError)
    | SymmetricKeyLength(length: nat)

  // ----- parsing and printing -----

  function ParseParts(encType: string, parts: seq<string>): Result<CipherString, CryptoError> {
    if encType != "2" then Failure(UnsupportedType(encType))
    else if |parts| < 2 then Failure(MissingCiphertext)
    else
      var iv, ct := Decode(parts[0]), Decode(parts[1]);
      var mac := if |parts| >= 3 then Decode(parts[2]) else Some([]);
      if iv.None? then Failure(CorruptIV)
      else if ct.None? then Failure(CorruptCiphertext)
      else if mac.None? then Failure(CorruptMAC)
      else Success(CipherString(encType, iv.value, ct.value, mac.value))
  }

  /** ParseCipherString; the empty string parses to no cipher string at all. */
  function Parse(s: string): Result<Option<CipherString>, CryptoError> {
    var dot := IndexOf(s, '.');
    if s == "" then Success(None)
    else if dot == |s| then Failure(MissingTypeSeparator)
    else
      match ParseParts(s[..dot], Split(s[dot + 1..], '|'))
      case Success(cs) => Success(Some(cs))
      case Failure(e) => Failure(e)
  }

  /** The format of the strings that Bitwarden clients upload. */
  function Print(iv: seq<byte>, ciphertext: seq<byte>, mac: seq<byte>): string {
    "2." + Join([Encode(iv), Encode(ciphertext), Encode(mac)], '|')
  }

  lemma EncodeAvoids(b: seq<byte>)
    ensures '|' !in Encode(b)
  {
    EncodeAlphabet(b);
    assert !InAlphabet('|');
  }

  lemma ParseAtDot(encType: string, body: string)
    requires '.' !in encType
    ensures Parse(encType + ['.'] + body)
         == match ParseParts(encType, Split(body, '|'))
            case Success(cs) => Success(Some(cs))
            case Failure(e) => Failure(e)
  {
    var s := encType + ['.'] + body;
    IndexOfFirst(encType, body, '.');
    assert s[..|encType|] == encType && s[|encType| + 1..] == body;
  }

  /** Parsing reads back any three byte strings that were printed. */
  lemma ParsePrint(iv: seq<byte>, ciphertext: seq<byte>, mac: seq<byte>)
    ensures Parse(Print(iv, ciphertext, mac)) == Success(Some(CipherString("2", iv, ciphertext, mac)))
  {
    var parts := [Encode(iv), Encode(ciphertext), Encode(mac)];
    var body := Join(parts, '|');
    assert Print(iv, ciphertext, mac) == "2" + ['.'] + body;
    ParseAtDot("2", body);
    EncodeAvoids(iv);
    EncodeAvoids(ciphertext);
    EncodeAvoids(mac);
    SplitJoin(parts, '|');
    DecodeEncode(iv);
    DecodeEncode(ciphertext);
    DecodeEncode(mac);
  }

  lemma AroundIndex(s: string, i: nat)
    requires i < |s|
    ensures s == s[..i] + [s[i]] + s[i + 1..]
  {
  }

  lemma Reassociate(a: string, b: string, c: string, d: string)
    ensures a + b + c + d == a + (b + c + d)
  {
  }

  lemma MorePartsIgnored(encType: string, parts: seq<string>, more: seq<string>)
    requires |parts| >= 3
    ensures ParseParts(encType, parts + more) == ParseParts(encType, parts)
  {
  }

  /** The format has three parts, but whatever follows a third one is ignored, in any string. */
  lemma TrailingPartsIgnored(s: string, more: string)
    requires '.' in s && |Split(s[IndexOf(s, '.') + 1..], '|')| >= 3
    ensures Parse(s + "|" + more) == Parse(s)
  {
    var dot := IndexOf(s, '.');
    var encType, body := s[..dot], s[dot + 1..];
    IndexOfPresent(s, '.');
    AroundIndex(s, dot);
    hide Parse, ParseParts, Split, IndexOf;
    Reassociate(encType + ['.'], body, ['|'], more);
    ParseAtDot(encType, body);
    ParseAtDot(encType, body + ['|'] + more);
    SplitAround(body, more, '|');
    MorePartsIgnored(encType, Split(body, '|'), Split(more, '|'));
  }

  /** body is parts joined by bars. */
  ghost predicate Bars(body: string, parts: seq<string>) {
    parts != [] && (forall q :: q in parts ==> '|' !in q) && body == Join(parts, '|')
  }

  /** What the format says of s: the type 2, then IV and ciphertext and a MAC or none, in base64, and more parts or none. */
  ghost predicate Written(s: string, cs: CipherString) {
    && cs.encType == "2"
    && |s| >= 2 && s[..2] == "2."
    && exists parts ::
         && Bars(s[2..], parts)
         && |parts| >= 2
         && Decode(parts[0]) == Some(cs.iv) && Decode(parts[1]) == Some(cs.ciphertext)
         && (if |parts| == 2 then cs.mac == [] else Decode(parts[2]) == Some(cs.mac))
  }

  lemma SplitIsBars(body: string, parts: seq<string>)
    ensures Bars(body, parts) <==> parts == Split(body, '|')
  {
    SplitParts(body, '|');
    JoinSplit(body, '|');
    if Bars(body, parts) {
      SplitJoin(parts, '|');
    }
  }

  /** Parsing accepts exactly the strings of the format. */
  lemma ParseIff(s: string, cs: CipherString)
    ensures Parse(s) == Success(Some(cs)) <==> Written(s, cs)
    ensures Parse(s) == Success(None) <==> s == ""
  {
    if |s| >= 2 && s[..2] == "2." {
      assert s == "2" + ['.'] + s[2..];
      ParseAtDot("2", s[2..]);
      SplitIsBars(s[2..], Split(s[2..], '|'));
      forall parts | Bars(s[2..], parts)
        ensures parts == Split(s[2..], '|')
      {
        SplitIsBars(s[2..], parts);
      }
      hide Decode, Bars, Parse, Split;
    } else if '.' in s {
      IndexOfPresent(s, '.');
      AroundIndex(s, IndexOf(s, '.'));
      OtherType(s);
    }
  }

  /** Before the first dot there is something else than the type 2. */
  lemma OtherType(s: string)
    requires '.' in s && !(|s| >= 2 && s[..2] == "2.")
    ensures IndexOf(s, '.') < |s| && s[..IndexOf(s, '.')] != "2"
  {
    IndexOfPresent(s, '.');
  }

  // ----- decryption -----

  /** The sizes aes.NewCipher accepts. */
  predicate KeySizeOk(key: seq<byte>) {
    |key| == 16 || |key| == 24 || |key| == 32
  }

  /** The MAC is compared only when the string carries one and the caller has a key. */
  predicate MacAccepted(p: Primitives, cs: CipherString, macKey: Option<seq<byte>>) {
    |cs.mac| > 0 && macKey.Some? ==> cs.mac == p.hmac(macKey.value, cs.iv + cs.ciphertext)
  }

  function DecryptParsed(p: Primitives, cs: CipherString, encKey: seq<byte>, macKey: Option<seq<byte>>)
    : Outcome<seq<byte>, CryptoError>
  {
    if !MacAccepted(p, cs, macKey) then Err(MACMismatch)
    else if !KeySizeOk(encKey) then Err(KeySize(|encKey|))
    else if |cs.ciphertext| % BLOCK_SIZE != 0 then Err(NotBlockMultiple)
    else if |cs.iv| != BLOCK_SIZE then Panic
    else
      match Unpad(DecryptCbc(p, encKey, cs.iv, cs.ciphertext))
      case Ok(m) => Ok(m)
      case Err(e) => Err(BadPadding(e))
      case Panic => Panic
  }

  /** DecryptCipherString; the empty string decrypts to nothing. */
  function Decrypt(p: Primitives, s: string, encKey: seq<byte>, macKey: Option<seq<byte>>)
    : Outcome<seq<byte>, CryptoError>
  {
    match Parse(s)
    case Failure(e) => Err(e)
    case Success(None) => Ok([])
    case Success(Some(cs)) => DecryptParsed(p, cs, encKey, macKey)
  }

  method DecryptCipherString(p: Primitives, s: string, encKey: seq<byte>, macKey: Option<seq<byte>>)
    returns (r: Outcome<seq<byte>, CryptoError>)
    ensures r == Decrypt(p, s, encKey, macKey)
  {
    if s == "" {
      return Ok([]);
    }
    var parsed := Parse(s);
    if parsed.Failure? {
      return Err(parsed.error);
    }
    var cs := parsed.value.value;
    if |cs.mac| > 0 && macKey.Some? {
      var expected := p.hmac(macKey.value, cs.iv + cs.ciphertext);
      if cs.mac != expected {
        return Err(MACMismatch);
      }
    }
    if !KeySizeOk(encKey) {
      return Err(KeySize(|encKey|));
    }
    if |cs.ciphertext| % BLOCK_SIZE != 0 {
      return Err(NotBlockMultiple);
    }
    if |cs.iv| != BLOCK_SIZE {
      return Panic;
    }
    var plaintext := new byte[|cs.ciphertext|](_ => 0);
    CryptBlocks(p, encKey, cs.iv, plaintext, cs.ciphertext);
    var stripped := StripPadding(plaintext);
    match stripped
    case Ok(m) => return Ok(m);
    case Err(e) => return Err(BadPadding(e));
    case Panic => return Panic;
  }

  // ----- the encrypting side and the round trips -----

  function Ciphertext(p: Primitives, encKey: seq<byte>, iv: Block, plain: seq<byte>): seq<byte> {
    EncryptCbc(p, encKey, iv, Pad(plain))
  }

  /** A plaintext, encrypted and authenticated under a key pair. */
  function Seal(p: Primitives, encKey: seq<byte>, macKey: seq<byte>, iv: Block, plain: seq<byte>): string {
    var ct := Ciphertext(p, encKey, iv, plain);
    Print(iv, ct, p.hmac(macKey, iv + ct))
  }

  /** Decryption accepts exactly the ciphertexts of padded messages, and recovers the message. */
  lemma DecryptParsedIff(p: Primitives, cs: CipherString, encKey: seq<byte>, macKey: Option<seq<byte>>, m: seq<byte>)
    requires Lawful(p) && |cs.iv| == 16
    ensures DecryptParsed(p, cs, encKey, macKey) == Ok(m)
       <==> && |encKey| in {16, 24, 32}
            && (cs.mac != [] && macKey.Some? ==> cs.mac == p.hmac(macKey.value, cs.iv + cs.ciphertext))
            && cs.ciphertext == Ciphertext(p, encKey, cs.iv, m)
  {
    DecryptEncryptCbc(p, encKey, cs.iv, Pad(m));
    UnpadPad(m);
    if |cs.ciphertext| % BLOCK_SIZE == 0 {
      EncryptDecryptCbc(p, encKey, cs.iv, cs.ciphertext);
      UnpadIff(DecryptCbc(p, encKey, cs.iv, cs.ciphertext), m);
    }
  }

  /**
   * A wrong MAC is refused, before anything else is looked at: exactly when the
   * string has a MAC, the caller has a key, and the MAC is not that of the IV and
   * the ciphertext under it. A key of no AES size comes next, then a ciphertext
   * of no whole blocks, then the padding.
   */
  lemma RefusedIff(p: Primitives, s: string, cs: CipherString, encKey: seq<byte>, macKey: Option<seq<byte>>)
    requires Parse(s) == Success(Some(cs))
    ensures var r := Decrypt(p, s, encKey, macKey);
            var wrongMac := cs.mac != [] && macKey.Some? && cs.mac != p.hmac(macKey.value, cs.iv + cs.ciphertext);
            var keySize, whole := |encKey| in {16, 24, 32}, |cs.ciphertext| % 16 == 0;
            && (r == Err(MACMismatch) <==> wrongMac)
            && (r == Err(KeySize(|encKey|)) <==> !wrongMac && !keySize)
            && (r == Err(NotBlockMultiple) <==> !wrongMac && keySize && !whole)
            && (r.Ok? || r.Panic? || (r.Err? && r.error.BadPadding?) <==> !wrongMac && keySize && whole)
  {
  }

  /** For instance a MAC with one wrong byte, under the keys that sealed the text. */
  lemma FlippedMac(p: Primitives, encKey: seq<byte>, macKey: seq<byte>, iv: Block, plain: seq<byte>, i: nat, b: byte)
    requires i < 32 && p.hmac(macKey, iv + Ciphertext(p, encKey, iv, plain))[i] != b
    ensures var ct := Ciphertext(p, encKey, iv, plain);
            Decrypt(p, Print(iv, ct, p.hmac(macKey, iv + ct)[i := b]), encKey, Some(macKey)) == Err(MACMismatch)
  {
    var ct := Ciphertext(p, encKey, iv, plain);
    var mac: seq<byte> := p.hmac(macKey, iv + ct);
    ParsePrint(iv, ct, mac[i := b]);
    assert mac[i := b][i] != mac[i];
    RefusedIff(p, Print(iv, ct, mac[i := b]), CipherString("2", iv, ct, mac[i := b]), encKey, Some(macKey));
  }

  /** Decryption inverts encryption, with or without the MAC key at hand. */
  lemma DecryptSeal(p: Primitives, encKey: seq<byte>, macKey: seq<byte>, iv: Block, plain: seq<byte>)
    requires Lawful(p) && KeySizeOk(encKey)
    ensures Decrypt(p, Seal(p, encKey, macKey, iv, plain), encKey, Some(macKey)) == Ok(plain)
    ensures Decrypt(p, Seal(p, encKey, macKey, iv, plain), encKey, None) == Ok(plain)
  {
    var ct := Ciphertext(p, encKey, iv, plain);
    var mac := p.hmac(macKey, iv + ct);
    ParsePrint(iv, ct, mac);
    DecryptParsedIff(p, CipherString("2", iv, ct, mac), encKey, Some(macKey), plain);
    DecryptParsedIff(p, CipherString("2", iv, ct, mac), encKey, None, plain);
  }

  /**
   * Without a MAC in the string there is no authentication, although the caller
   * has a MAC key: every ciphertext of a padded message is accepted.
   */
  lemma NoMacIff(p: Primitives, iv: Block, ct: seq<byte>, encKey: seq<byte>, macKey: Option<seq<byte>>, m: seq<byte>)
    requires Lawful(p) && KeySizeOk(encKey)
    ensures Decrypt(p, Print(iv, ct, []), encKey, macKey) == Ok(m) <==> ct == Ciphertext(p, encKey, iv, m)
  {
    ParsePrint(iv, ct, []);
    DecryptParsedIff(p, CipherString("2", iv, ct, []), encKey, macKey, m);
  }

  /** For instance a sealed text whose MAC is dropped still opens. */
  lemma DroppedMac(p: Primitives, encKey: seq<byte>, macKey: seq<byte>, iv: Block, plain: seq<byte>)
    requires Lawful(p) && KeySizeOk(encKey)
    ensures Decrypt(p, Print(iv, Ciphertext(p, encKey, iv, plain), []), encKey, Some(macKey)) == Ok(plain)
  {
    NoMacIff(p, iv, Ciphertext(p, encKey, iv, plain), encKey, Some(macKey), plain);
  }

  /** Exactly the strings on which the code panics instead of returning an error. */
  lemma PanicIff(p: Primitives, s: string, encKey: seq<byte>, macKey: Option<seq<byte>>)
    ensures Decrypt(p, s, encKey, macKey).Panic?
       <==> match Parse(s)
            case Success(Some(cs)) =>
              && (cs.mac != [] && macKey.Some? ==> cs.mac == p.hmac(macKey.value, cs.iv + cs.ciphertext))
              && |encKey| in {16, 24, 32}
              && |cs.ciphertext| % 16 == 0
              && (|cs.iv| != 16 || cs.ciphertext == [])
            case _ => false
  {
  }

  /** For instance a printed cipher string with an empty IV and an empty ciphertext. */
  lemma EmptyPartsPanic(p: Primitives, encKey: seq<byte>, macKey: Option<seq<byte>>)
    requires KeySizeOk(encKey)
    ensures Decrypt(p, Print([], [], []), encKey, macKey) == Panic
  {
    ParsePrint([], [], []);
  }

  /** No sealed string panics, even under a wrong key. */
  lemma SealedNeverPanics(p: Primitives, encKey: seq<byte>, macKey: seq<byte>, iv: Block, plain: seq<byte>,
                          otherEnc: seq<byte>, otherMac: Option<seq<byte>>)
    ensures !Decrypt(p, Seal(p, encKey, macKey, iv, plain), otherEnc, otherMac).Panic?
  {
    var ct := Ciphertext(p, encKey, iv, plain);
    ParsePrint(iv, ct, p.hmac(macKey, iv + ct));
    PanicIff(p, Seal(p, encKey, macKey, iv, plain), otherEnc, otherMac);
  }

  // ----- strings -----

  /** string(bytes) */
  function ToGoString(b: seq<byte>): (s: string)
    ensures |s| == |b|
  {
    seq(|b|, i requires 0 <= i < |b| => b[i] as char)
  }

  /** []byte(s) */
  function ToBytes(s: string): (b: seq<byte>)
    requires IsByteString(s)
    ensures |b| == |s|
  {
    seq<byte>(|s|, i requires 0 <= i < |s| && IsByteString(s) => s[i] as int)
  }

  lemma GoStringRoundTrip(s: string)
    requires IsByteString(s)
    ensures ToGoString(ToBytes(s)) == s
  {
  }

  function DecryptString(p: Primitives, s: string, encKey: seq<byte>, macKey: Option<seq<byte>>)
    : Outcome<string, CryptoError>
  {
    var plain :- Decrypt(p, s, encKey, macKey);
    Ok(ToGoString(plain))
  }
}
