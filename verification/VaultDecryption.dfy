/** Decrypting a synced vault, and the encrypting side it inverts (internal/provider/bitwarden_client.go). */
module VaultDecryption {
  import opened Wrappers
  import opened Base64
  import opened Ciphers
  import opened CipherStrings
  import opened VaultItems
  import opened GoStrings

  /** symKey and symMac; a nil symMac is None. */
  datatype Keys = Keys(enc: seq<byte>, mac: Option<seq<byte>>)

  type Decrypted<T> = Outcome<T, CryptoError>

  function Open(p: Primitives, k: Keys, text: string): Decrypted<string> {
    DecryptString(p, text, k.enc, k.mac)
  }

  /** `x, _ = DecryptString(...)` */
  function OpenOrEmpty(p: Primitives, k: Keys, text: string): Decrypted<string> {
    Open(p, k, text).OrZero("")
  }

  function DecryptUris(p: Primitives, k: Keys, uris: seq<string>): Decrypted<seq<string>> {
    if uris == [] then Ok([])
    else
      var before :- DecryptUris(p, k, uris[..|uris| - 1]);
      var last := uris[|uris| - 1];
      if last == "" then Ok(before)
      else
        var uri :- OpenOrEmpty(p, k, last);
        Ok(before + [uri])
  }

  function DecryptLogin(p: Primitives, k: Keys, l: CipherLogin): Decrypted<DecryptedLogin> {
    var username :- OpenOrEmpty(p, k, l.username);
    var password :- OpenOrEmpty(p, k, l.password);
    var totp :- OpenOrEmpty(p, k, l.totp);
    var uris :- DecryptUris(p, k, l.uris);
    Ok(DecryptedLogin(username, password, totp, uris))
  }

  function DecryptCard(p: Primitives, k: Keys, c: CipherCard): Decrypted<DecryptedCard> {
    var cardholderName :- OpenOrEmpty(p, k, c.cardholderName);
    var brand :- OpenOrEmpty(p, k, c.brand);
    var number :- OpenOrEmpty(p, k, c.number);
    var expMonth :- OpenOrEmpty(p, k, c.expMonth);
    var expYear :- OpenOrEmpty(p, k, c.expYear);
    var code :- OpenOrEmpty(p, k, c.code);
    Ok(DecryptedCard(cardholderName, brand, number, expMonth, expYear, code))
  }

  function DecryptField(p: Primitives, k: Keys, f: CipherField): Decrypted<DecryptedField> {
    var name :- OpenOrEmpty(p, k, f.name);
    var value :- OpenOrEmpty(p, k, f.value);
    Ok(DecryptedField(name, value, f.kind))
  }

  function DecryptFields(p: Primitives, k: Keys, fields: seq<CipherField>): Decrypted<seq<DecryptedField>> {
    if fields == [] then Ok([])
    else
      var before :- DecryptFields(p, k, fields[..|fields| - 1]);
      var f :- DecryptField(p, k, fields[|fields| - 1]);
      Ok(before + [f])
  }

  function DecryptOptional<T, U>(x: Option<T>, f: T -> Decrypted<U>): Decrypted<Option<U>> {
    match x
    case None => Ok(None)
    case Some(v) =>
      var u :- f(v);
      Ok(Some(u))
  }

  /** decryptCipher: only the name and the notes can fail. */
  function DecryptCipher(p: Primitives, k: Keys, c: Cipher): Decrypted<DecryptedItem> {
    var name :- Open(p, k, c.name);
    var notes :- if c.notes.Some? then Open(p, k, c.notes.value) else Ok("");
    var login :- DecryptOptional(c.login, l => DecryptLogin(p, k, l));
    var card :- DecryptOptional(c.card, d => DecryptCard(p, k, d));
    var fields :- DecryptFields(p, k, c.fields);
    Ok(DecryptedItem(c.id, name, c.kind, TypeName(c.kind), notes, login, card, fields, c.folderId))
  }

  function DecryptCiphers(p: Primitives, k: Keys, ciphers: seq<Cipher>): Decrypted<seq<DecryptedItem>> {
    if ciphers == [] then Ok([])
    else
      var before :- DecryptCiphers(p, k, ciphers[..|ciphers| - 1]);
      var item :- DecryptCipher(p, k, ciphers[|ciphers| - 1]);
      Ok(before + [item])
  }

  function DecryptFolders(p: Primitives, k: Keys, folders: seq<SyncFolder>): Decrypted<map<string, string>> {
    if folders == [] then Ok(map[])
    else
      var before :- DecryptFolders(p, k, folders[..|folders| - 1]);
      var last := folders[|folders| - 1];
      var name :- Open(p, k, last.name);
      Ok(before[last.id := name])
  }

  // ----- the encrypting side -----

  /** text is plain encrypted under k with some IV, or plain is empty and was left out. */
  ghost predicate Sealed(p: Primitives, k: Keys, plain: string, text: string) {
    || (plain == "" && text == "")
    || (IsByteString(plain) && k.mac.Some?
        && exists iv: Block :: text == Seal(p, k.enc, k.mac.value, iv, ToBytes(plain)))
  }

  ghost predicate LoginSealed(p: Primitives, k: Keys, plain: DecryptedLogin, l: CipherLogin) {
    && Sealed(p, k, plain.username, l.username)
    && Sealed(p, k, plain.password, l.password)
    && Sealed(p, k, plain.totp, l.totp)
    && AllSealed(p, k, plain.uris, DropEmpty(l.uris))
  }

  ghost predicate CardSealed(p: Primitives, k: Keys, plain: DecryptedCard, c: CipherCard) {
    && Sealed(p, k, plain.cardholderName, c.cardholderName)
    && Sealed(p, k, plain.brand, c.brand)
    && Sealed(p, k, plain.number, c.number)
    && Sealed(p, k, plain.expMonth, c.expMonth)
    && Sealed(p, k, plain.expYear, c.expYear)
    && Sealed(p, k, plain.code, c.code)
  }

  ghost predicate FieldSealed(p: Primitives, k: Keys, plain: DecryptedField, f: CipherField) {
    Sealed(p, k, plain.name, f.name) && Sealed(p, k, plain.value, f.value) && plain.kind == f.kind
  }

  ghost predicate FieldsSealed(p: Primitives, k: Keys, plain: seq<DecryptedField>, fields: seq<CipherField>) {
    |plain| == |fields| && forall i :: 0 <= i < |plain| ==> FieldSealed(p, k, plain[i], fields[i])
  }

  /** c is the upload of item under k. */
  ghost predicate ItemSealed(p: Primitives, k: Keys, item: DecryptedItem, c: Cipher) {
    && c.id == item.id && c.kind == item.kind && c.folderId == item.folderId
    && item.typeName == TypeName(item.kind)
    && Sealed(p, k, item.name, c.name)
    && (if c.notes.Some? then Sealed(p, k, item.notes, c.notes.value) else item.notes == "")
    && c.login.Some? == item.login.Some?
    && (c.login.Some? ==> LoginSealed(p, k, item.login.value, c.login.value))
    && c.card.Some? == item.card.Some?
    && (c.card.Some? ==> CardSealed(p, k, item.card.value, c.card.value))
    && FieldsSealed(p, k, item.fields, c.fields)
  }

  ghost predicate ItemsSealed(p: Primitives, k: Keys, items: seq<DecryptedItem>, ciphers: seq<Cipher>) {
    |items| == |ciphers| && forall i :: 0 <= i < |items| ==> ItemSealed(p, k, items[i], ciphers[i])
  }

  datatype Folder = Folder(id: string, name: string)

  ghost predicate FoldersSealed(p: Primitives, k: Keys, plain: seq<Folder>, folders: seq<SyncFolder>) {
    |plain| == |folders|
    && forall i :: 0 <= i < |plain| ==> folders[i].id == plain[i].id && Sealed(p, k, plain[i].name, folders[i].name)
  }

  /** The folder names by ID, the last folder with an ID winning. */
  function FolderMap(plain: seq<Folder>): map<string, string> {
    if plain == [] then map[]
    else
      var last := plain[|plain| - 1];
      FolderMap(plain[..|plain| - 1])[last.id := last.name]
  }

  // ----- recovery -----

  ghost predicate GoodKeys(p: Primitives, k: Keys) {
    Lawful(p) && KeySizeOk(k.enc)
  }

  lemma OpenSealed(p: Primitives, k: Keys, plain: string, text: string)
    requires GoodKeys(p, k) && Sealed(p, k, plain, text)
    ensures Open(p, k, text) == Ok(plain) && OpenOrEmpty(p, k, text) == Ok(plain)
  {
    if plain == "" && text == "" {
      assert Decrypt(p, "", k.enc, k.mac) == Ok([]);
    } else {
      var iv: Block :| text == Seal(p, k.enc, k.mac.value, iv, ToBytes(plain));
      DecryptSeal(p, k.enc, k.mac.value, iv, ToBytes(plain));
      GoStringRoundTrip(plain);
    }
  }

  /** Each text is the plaintext beside it, sealed. */
  ghost predicate AllSealed(p: Primitives, k: Keys, plain: seq<string>, texts: seq<string>) {
    |plain| == |texts| && forall i :: 0 <= i < |plain| ==> Sealed(p, k, plain[i], texts[i])
  }

  lemma UriOneMore(p: Primitives, k: Keys, uris: seq<string>, before: seq<string>, uri: string)
    requires uris != [] && DecryptUris(p, k, uris[..|uris| - 1]) == Ok(before)
    requires uris[|uris| - 1] != "" ==> OpenOrEmpty(p, k, uris[|uris| - 1]) == Ok(uri)
    ensures DecryptUris(p, k, uris) == Ok(if uris[|uris| - 1] == "" then before else before + [uri])
  {
    hide OpenOrEmpty;
  }

  lemma {:induction false} UrisRecovered(p: Primitives, k: Keys, plain: seq<string>, uris: seq<string>)
    requires GoodKeys(p, k) && AllSealed(p, k, plain, DropEmpty(uris))
    ensures DecryptUris(p, k, uris) == Ok(plain)
    decreases uris
  {
    if uris != [] {
      hide DecryptUris, Open, OpenOrEmpty, Sealed, GoodKeys;
      var n, m := |uris| - 1, |plain| - 1;
      if uris[n] == "" {
        assert DropEmpty(uris) == DropEmpty(uris[..n]);
        UrisRecovered(p, k, plain, uris[..n]);
        UriOneMore(p, k, uris, plain, "");
      } else {
        assert DropEmpty(uris[..n]) == DropEmpty(uris)[..m];
        UrisRecovered(p, k, plain[..m], uris[..n]);
        OpenSealed(p, k, plain[m], uris[n]);
        UriOneMore(p, k, uris, plain[..m], plain[m]);
        assert plain == plain[..m] + [plain[m]];
      }
    }
  }

  lemma LoginRecovered(p: Primitives, k: Keys, plain: DecryptedLogin, l: CipherLogin)
    requires GoodKeys(p, k) && LoginSealed(p, k, plain, l)
    ensures DecryptLogin(p, k, l) == Ok(plain)
  {
    hide Open, OpenOrEmpty, Sealed;
    OpenSealed(p, k, plain.username, l.username);
    OpenSealed(p, k, plain.password, l.password);
    OpenSealed(p, k, plain.totp, l.totp);
    UrisRecovered(p, k, plain.uris, l.uris);
  }

  lemma CardRecovered(p: Primitives, k: Keys, plain: DecryptedCard, c: CipherCard)
    requires GoodKeys(p, k) && CardSealed(p, k, plain, c)
    ensures DecryptCard(p, k, c) == Ok(plain)
  {
    hide Open, OpenOrEmpty, Sealed;
    OpenSealed(p, k, plain.cardholderName, c.cardholderName);
    OpenSealed(p, k, plain.brand, c.brand);
    OpenSealed(p, k, plain.number, c.number);
    OpenSealed(p, k, plain.expMonth, c.expMonth);
    OpenSealed(p, k, plain.expYear, c.expYear);
    OpenSealed(p, k, plain.code, c.code);
  }

  lemma FieldRecovered(p: Primitives, k: Keys, plain: DecryptedField, f: CipherField)
    requires GoodKeys(p, k) && FieldSealed(p, k, plain, f)
    ensures DecryptField(p, k, f) == Ok(plain)
  {
    hide Open, OpenOrEmpty, Sealed;
    OpenSealed(p, k, plain.name, f.name);
    OpenSealed(p, k, plain.value, f.value);
  }

  lemma FieldOneMore(p: Primitives, k: Keys, fields: seq<CipherField>, before: seq<DecryptedField>, f: DecryptedField)
    requires fields != []
    requires DecryptFields(p, k, fields[..|fields| - 1]) == Ok(before)
    requires DecryptField(p, k, fields[|fields| - 1]) == Ok(f)
    ensures DecryptFields(p, k, fields) == Ok(before + [f])
  {
    hide DecryptField;
  }

  lemma TakeOneMore<T>(s: seq<T>, n: nat)
    requires 0 < n <= |s|
    ensures s[..n] != [] && s[..n][..n - 1] == s[..n - 1] && s[..n][n - 1] == s[n - 1]
    ensures s[..n] == s[..n - 1] + [s[n - 1]]
  {
  }

  lemma FieldOneMoreOf(p: Primitives, k: Keys, plain: seq<DecryptedField>, fields: seq<CipherField>, n: nat)
    requires 0 < n <= |plain| == |fields|
    requires DecryptFields(p, k, fields[..n - 1]) == Ok(plain[..n - 1])
    requires DecryptField(p, k, fields[n - 1]) == Ok(plain[n - 1])
    ensures DecryptFields(p, k, fields[..n]) == Ok(plain[..n])
  {
    hide DecryptField, DecryptFields;
    TakeOneMore(fields, n);
    TakeOneMore(plain, n);
    FieldOneMore(p, k, fields[..n], plain[..n - 1], plain[n - 1]);
  }

  lemma {:induction false} FirstFieldsRecovered(p: Primitives, k: Keys, plain: seq<DecryptedField>, fields: seq<CipherField>, n: nat)
    requires GoodKeys(p, k) && FieldsSealed(p, k, plain, fields) && n <= |plain|
    ensures DecryptFields(p, k, fields[..n]) == Ok(plain[..n])
  {
    if n == 0 {
      assert fields[..n] == [] && plain[..n] == [];
    } else {
      hide GoodKeys, FieldSealed, DecryptField, DecryptFields;
      FirstFieldsRecovered(p, k, plain, fields, n - 1);
      FieldRecovered(p, k, plain[n - 1], fields[n - 1]);
      FieldOneMoreOf(p, k, plain, fields, n);
    }
  }

  lemma FieldsRecovered(p: Primitives, k: Keys, plain: seq<DecryptedField>, fields: seq<CipherField>)
    requires GoodKeys(p, k) && FieldsSealed(p, k, plain, fields)
    ensures DecryptFields(p, k, fields) == Ok(plain)
  {
    FirstFieldsRecovered(p, k, plain, fields, |plain|);
    assert fields[..|plain|] == fields && plain[..|plain|] == plain;
  }

  lemma ItemRecovered(p: Primitives, k: Keys, item: DecryptedItem, c: Cipher)
    requires GoodKeys(p, k) && ItemSealed(p, k, item, c)
    ensures DecryptCipher(p, k, c) == Ok(item)
  {
    hide Open, OpenOrEmpty, Sealed, DecryptLogin, DecryptCard, LoginSealed, CardSealed, DecryptFields;
    OpenSealed(p, k, item.name, c.name);
    if c.notes.Some? {
      OpenSealed(p, k, item.notes, c.notes.value);
    }
    if c.login.Some? {
      LoginRecovered(p, k, item.login.value, c.login.value);
    }
    if c.card.Some? {
      CardRecovered(p, k, item.card.value, c.card.value);
    }
    FieldsRecovered(p, k, item.fields, c.fields);
  }

  lemma DecryptOneMore(p: Primitives, k: Keys, ciphers: seq<Cipher>, before: seq<DecryptedItem>, item: DecryptedItem)
    requires ciphers != []
    requires DecryptCiphers(p, k, ciphers[..|ciphers| - 1]) == Ok(before)
    requires DecryptCipher(p, k, ciphers[|ciphers| - 1]) == Ok(item)
    ensures DecryptCiphers(p, k, ciphers) == Ok(before + [item])
  {
    hide DecryptCipher;
  }

  lemma DecryptOneMoreOf(p: Primitives, k: Keys, items: seq<DecryptedItem>, ciphers: seq<Cipher>, n: nat)
    requires 0 < n <= |items| == |ciphers|
    requires DecryptCiphers(p, k, ciphers[..n - 1]) == Ok(items[..n - 1])
    requires DecryptCipher(p, k, ciphers[n - 1]) == Ok(items[n - 1])
    ensures DecryptCiphers(p, k, ciphers[..n]) == Ok(items[..n])
  {
    hide DecryptCipher, DecryptCiphers;
    TakeOneMore(ciphers, n);
    TakeOneMore(items, n);
    DecryptOneMore(p, k, ciphers[..n], items[..n - 1], items[n - 1]);
  }

  lemma {:induction false} FirstItemsRecovered(p: Primitives, k: Keys, items: seq<DecryptedItem>, ciphers: seq<Cipher>, n: nat)
    requires GoodKeys(p, k) && ItemsSealed(p, k, items, ciphers) && n <= |items|
    ensures DecryptCiphers(p, k, ciphers[..n]) == Ok(items[..n])
  {
    if n == 0 {
      assert ciphers[..n] == [] && items[..n] == [];
    } else {
      hide ItemSealed, DecryptCipher, DecryptCiphers, GoodKeys;
      FirstItemsRecovered(p, k, items, ciphers, n - 1);
      ItemRecovered(p, k, items[n - 1], ciphers[n - 1]);
      DecryptOneMoreOf(p, k, items, ciphers, n);
    }
  }

  /** Every item of an encrypted vault is recovered, in order. */
  lemma ItemsRecovered(p: Primitives, k: Keys, items: seq<DecryptedItem>, ciphers: seq<Cipher>)
    requires GoodKeys(p, k) && ItemsSealed(p, k, items, ciphers)
    ensures DecryptCiphers(p, k, ciphers) == Ok(items)
  {
    FirstItemsRecovered(p, k, items, ciphers, |items|);
    assert ciphers[..|items|] == ciphers && items[..|items|] == items;
  }

  lemma {:induction false} FoldersRecovered(p: Primitives, k: Keys, plain: seq<Folder>, folders: seq<SyncFolder>)
    requires GoodKeys(p, k) && FoldersSealed(p, k, plain, folders)
    ensures DecryptFolders(p, k, folders) == Ok(FolderMap(plain))
    decreases plain
  {
    if plain != [] {
      hide Open, Sealed;
      var n := |plain| - 1;
      FoldersRecovered(p, k, plain[..n], folders[..n]);
      OpenSealed(p, k, plain[n].name, folders[n].name);
    }
  }

  /** Of several folders with one ID the last one counts. */
  lemma {:induction false} FolderMapLast(plain: seq<Folder>, i: nat)
    requires i < |plain| && forall j :: i < j < |plain| ==> plain[j].id != plain[i].id
    ensures plain[i].id in FolderMap(plain) && FolderMap(plain)[plain[i].id] == plain[i].name
  {
    var n := |plain| - 1;
    if i < n {
      FolderMapLast(plain[..n], i);
    }
  }

  // ----- failures and panics -----

  /** The texts of an item whose errors are dropped. */
  function UnneededTexts(c: Cipher): seq<string> {
    (if c.login.Some? then LoginTexts(c.login.value) else [])
    + (if c.card.Some? then CardTexts(c.card.value) else [])
    + FieldTexts(c.fields)
  }

  function LoginTexts(l: CipherLogin): seq<string> {
    [l.username, l.password, l.totp] + l.uris
  }

  function CardTexts(c: CipherCard): seq<string> {
    [c.cardholderName, c.brand, c.number, c.expMonth, c.expYear, c.code]
  }

  function FieldTexts(fields: seq<CipherField>): seq<string> {
    if fields == [] then []
    else
      var f := fields[|fields| - 1];
      FieldTexts(fields[..|fields| - 1]) + [f.name, f.value]
  }

  ghost predicate SomePanics(p: Primitives, k: Keys, texts: seq<string>) {
    exists i :: 0 <= i < |texts| && Open(p, k, texts[i]).Panic?
  }

  lemma SomePanicsConcat(p: Primitives, k: Keys, a: seq<string>, b: seq<string>)
    ensures SomePanics(p, k, a + b) <==> SomePanics(p, k, a) || SomePanics(p, k, b)
  {
    hide Open;
    if i :| 0 <= i < |a| && Open(p, k, a[i]).Panic? {
      assert (a + b)[i] == a[i];
    }
    if i :| 0 <= i < |b| && Open(p, k, b[i]).Panic? {
      assert (a + b)[|a| + i] == b[i];
    }
  }

  lemma OneTextPanics(p: Primitives, k: Keys, text: string)
    ensures SomePanics(p, k, [text]) <==> Open(p, k, text).Panic?
    ensures Open(p, k, text).Panic? <==> OpenOrEmpty(p, k, text).Panic?
    ensures !OpenOrEmpty(p, k, text).Err?
  {
    assert Open(p, k, text).Panic? ==> Open(p, k, [text][0]).Panic?;
    hide Open;
  }

  /** The plaintext of a text whose error is dropped: nothing when it does not open. */
  function PlainOrNothing(p: Primitives, k: Keys, text: string): string {
    match Open(p, k, text)
    case Ok(plain) => plain
    case _ => ""
  }

  /** Texts that fail are empty in the item, each in its own place; nothing else is affected. */
  lemma UnneededTextsRead(p: Primitives, k: Keys, l: CipherLogin, c: CipherCard, f: CipherField)
    ensures DecryptLogin(p, k, l).Ok? ==>
              var d := DecryptLogin(p, k, l).value;
              && d.username == PlainOrNothing(p, k, l.username)
              && d.password == PlainOrNothing(p, k, l.password)
              && d.totp == PlainOrNothing(p, k, l.totp)
    ensures DecryptCard(p, k, c).Ok? ==>
              DecryptCard(p, k, c).value
              == DecryptedCard(PlainOrNothing(p, k, c.cardholderName), PlainOrNothing(p, k, c.brand), PlainOrNothing(p, k, c.number),
                               PlainOrNothing(p, k, c.expMonth), PlainOrNothing(p, k, c.expYear), PlainOrNothing(p, k, c.code))
    ensures DecryptField(p, k, f).Ok? ==>
              DecryptField(p, k, f).value == DecryptedField(PlainOrNothing(p, k, f.name), PlainOrNothing(p, k, f.value), f.kind)
  {
    hide Open, DecryptUris;
  }

  lemma {:induction false} UrisOutcome(p: Primitives, k: Keys, uris: seq<string>)
    ensures !DecryptUris(p, k, uris).Err?
    ensures DecryptUris(p, k, uris).Panic? <==> SomePanics(p, k, uris)
  {
    if uris != [] {
      var n := |uris| - 1;
      UrisOutcome(p, k, uris[..n]);
      assert uris == uris[..n] + [uris[n]];
      SomePanicsConcat(p, k, uris[..n], [uris[n]]);
      OneTextPanics(p, k, uris[n]);
      assert Open(p, k, "").Ok?;
      hide Open, OpenOrEmpty, SomePanics;
    }
  }

  lemma LoginOutcome(p: Primitives, k: Keys, l: CipherLogin)
    ensures !DecryptLogin(p, k, l).Err?
    ensures DecryptLogin(p, k, l).Panic? <==> SomePanics(p, k, LoginTexts(l))
  {
    UrisOutcome(p, k, l.uris);
    OneTextPanics(p, k, l.username);
    OneTextPanics(p, k, l.password);
    OneTextPanics(p, k, l.totp);
    hide Open, OpenOrEmpty, DecryptUris, SomePanics;
    assert LoginTexts(l) == [l.username] + ([l.password] + ([l.totp] + l.uris));
    SomePanicsConcat(p, k, [l.username], [l.password] + ([l.totp] + l.uris));
    SomePanicsConcat(p, k, [l.password], [l.totp] + l.uris);
    SomePanicsConcat(p, k, [l.totp], l.uris);
  }

  lemma CardOutcome(p: Primitives, k: Keys, c: CipherCard)
    ensures !DecryptCard(p, k, c).Err?
    ensures DecryptCard(p, k, c).Panic? <==> SomePanics(p, k, CardTexts(c))
  {
    OneTextPanics(p, k, c.cardholderName);
    OneTextPanics(p, k, c.brand);
    OneTextPanics(p, k, c.number);
    OneTextPanics(p, k, c.expMonth);
    OneTextPanics(p, k, c.expYear);
    OneTextPanics(p, k, c.code);
    hide Open, OpenOrEmpty, SomePanics;
    assert CardTexts(c)
        == [c.cardholderName] + ([c.brand] + ([c.number] + ([c.expMonth] + ([c.expYear] + [c.code]))));
    SomePanicsConcat(p, k, [c.cardholderName], [c.brand] + ([c.number] + ([c.expMonth] + ([c.expYear] + [c.code]))));
    SomePanicsConcat(p, k, [c.brand], [c.number] + ([c.expMonth] + ([c.expYear] + [c.code])));
    SomePanicsConcat(p, k, [c.number], [c.expMonth] + ([c.expYear] + [c.code]));
    SomePanicsConcat(p, k, [c.expMonth], [c.expYear] + [c.code]);
    SomePanicsConcat(p, k, [c.expYear], [c.code]);
  }

  lemma {:induction false} FieldsOutcome(p: Primitives, k: Keys, fields: seq<CipherField>)
    ensures !DecryptFields(p, k, fields).Err?
    ensures DecryptFields(p, k, fields).Panic? <==> SomePanics(p, k, FieldTexts(fields))
  {
    if fields != [] {
      var n := |fields| - 1;
      var f := fields[n];
      FieldsOutcome(p, k, fields[..n]);
      OneTextPanics(p, k, f.name);
      OneTextPanics(p, k, f.value);
      assert [f.name, f.value] == [f.name] + [f.value];
      hide Open, OpenOrEmpty, SomePanics;
      SomePanicsConcat(p, k, FieldTexts(fields[..n]), [f.name, f.value]);
      SomePanicsConcat(p, k, [f.name], [f.value]);
    } else {
      assert FieldTexts(fields) == [];
    }
  }

  /** The name opens, and so do the notes if there are any. */
  predicate NeededOpen(p: Primitives, k: Keys, c: Cipher) {
    Open(p, k, c.name).Ok? && (c.notes.Some? ==> Open(p, k, c.notes.value).Ok?)
  }

  /** Exactly a name that does not open, or then notes that do not, make an item fail. */
  lemma CipherFailsIff(p: Primitives, k: Keys, c: Cipher)
    ensures DecryptCipher(p, k, c).Err?
       <==> Open(p, k, c.name).Err? || (Open(p, k, c.name).Ok? && c.notes.Some? && Open(p, k, c.notes.value).Err?)
  {
    UnneededOutcome(p, k, c);
    hide DecryptLogin, DecryptCard, DecryptFields, Open;
  }

  /** An item panics when its name does, then when its notes do, then when any other text does. */
  lemma CipherPanicsIff(p: Primitives, k: Keys, c: Cipher)
    ensures DecryptCipher(p, k, c).Panic?
       <==> || Open(p, k, c.name).Panic?
            || (Open(p, k, c.name).Ok? && c.notes.Some? && Open(p, k, c.notes.value).Panic?)
            || (NeededOpen(p, k, c) && SomePanics(p, k, UnneededTexts(c)))
  {
    UnneededOutcome(p, k, c);
    hide DecryptLogin, DecryptCard, DecryptFields, Open, SomePanics;
  }

  lemma UnneededOutcome(p: Primitives, k: Keys, c: Cipher)
    ensures var login := DecryptOptional(c.login, l => DecryptLogin(p, k, l));
            var card := DecryptOptional(c.card, d => DecryptCard(p, k, d));
            var fields := DecryptFields(p, k, c.fields);
            && !login.Err? && !card.Err? && !fields.Err?
            && (SomePanics(p, k, UnneededTexts(c)) <==> login.Panic? || card.Panic? || fields.Panic?)
  {
    if c.login.Some? {
      LoginOutcome(p, k, c.login.value);
    }
    if c.card.Some? {
      CardOutcome(p, k, c.card.value);
    }
    FieldsOutcome(p, k, c.fields);
    hide DecryptLogin, DecryptCard, DecryptFields, Open, LoginTexts, CardTexts, FieldTexts;
    var a := if c.login.Some? then LoginTexts(c.login.value) else [];
    var b := if c.card.Some? then CardTexts(c.card.value) else [];
    SomePanicsConcat(p, k, a + b, FieldTexts(c.fields));
    SomePanicsConcat(p, k, a, b);
  }

  lemma {:induction false} FoldersFailAt(p: Primitives, k: Keys, synced: seq<SyncFolder>, i: nat)
    requires i < |synced| && DecryptFolders(p, k, synced[..i]).Ok? && !Open(p, k, synced[i].name).Ok?
    ensures DecryptFolders(p, k, synced)
         == if Open(p, k, synced[i].name).Err? then Err(Open(p, k, synced[i].name).error) else Panic
    decreases |synced|
  {
    hide Open;
    var n := |synced| - 1;
    if i < n {
      assert synced[..n][..i] == synced[..i];
      FoldersFailAt(p, k, synced[..n], i);
    }
  }

  lemma {:induction false} CiphersFailAt(p: Primitives, k: Keys, synced: seq<Cipher>, i: nat)
    requires i < |synced| && DecryptCiphers(p, k, synced[..i]).Ok? && !DecryptCipher(p, k, synced[i]).Ok?
    ensures DecryptCiphers(p, k, synced)
         == if DecryptCipher(p, k, synced[i]).Err? then Err(DecryptCipher(p, k, synced[i]).error) else Panic
    decreases |synced|
  {
    hide DecryptCipher;
    var n := |synced| - 1;
    if i < n {
      assert synced[..n][..i] == synced[..i];
      CiphersFailAt(p, k, synced[..n], i);
    }
  }

  /** The first n folder names open. */
  predicate FoldersOpen(p: Primitives, k: Keys, folders: seq<SyncFolder>, n: nat)
    requires n <= |folders|
  {
    forall i :: 0 <= i < n ==> Open(p, k, folders[i].name).Ok?
  }

  /** The first n items decrypt. */
  predicate CiphersOpen(p: Primitives, k: Keys, ciphers: seq<Cipher>, n: nat)
    requires n <= |ciphers|
  {
    forall i :: 0 <= i < n ==> DecryptCipher(p, k, ciphers[i]).Ok?
  }

  lemma {:induction false} FoldersOpenOk(p: Primitives, k: Keys, folders: seq<SyncFolder>, n: nat)
    requires n <= |folders|
    ensures DecryptFolders(p, k, folders[..n]).Ok? <==> FoldersOpen(p, k, folders, n)
  {
    hide Open;
    if n > 0 {
      FoldersOpenOk(p, k, folders, n - 1);
      assert folders[..n][..n - 1] == folders[..n - 1];
    }
  }

  lemma {:induction false} CiphersOpenOk(p: Primitives, k: Keys, ciphers: seq<Cipher>, n: nat)
    requires n <= |ciphers|
    ensures DecryptCiphers(p, k, ciphers[..n]).Ok? <==> CiphersOpen(p, k, ciphers, n)
  {
    hide DecryptCipher;
    if n > 0 {
      CiphersOpenOk(p, k, ciphers, n - 1);
      assert ciphers[..n][..n - 1] == ciphers[..n - 1];
    }
  }

  /** The first folder name that does not open decides how the folders fail. */
  lemma FoldersOutcome(p: Primitives, k: Keys, folders: seq<SyncFolder>)
    ensures DecryptFolders(p, k, folders).Ok? <==> FoldersOpen(p, k, folders, |folders|)
    ensures DecryptFolders(p, k, folders).Panic?
       <==> exists i :: 0 <= i < |folders| && FoldersOpen(p, k, folders, i) && Open(p, k, folders[i].name).Panic?
  {
    hide Open;
    assert folders[..|folders|] == folders;
    FoldersOpenOk(p, k, folders, |folders|);
    forall i | 0 <= i < |folders| && FoldersOpen(p, k, folders, i) && !Open(p, k, folders[i].name).Ok?
      ensures DecryptFolders(p, k, folders).Panic? <==> Open(p, k, folders[i].name).Panic?
    {
      FoldersOpenOk(p, k, folders, i);
      FoldersFailAt(p, k, folders, i);
    }
    if !FoldersOpen(p, k, folders, |folders|) {
      var i := 0;
      while Open(p, k, folders[i].name).Ok?
        invariant 0 <= i < |folders| && FoldersOpen(p, k, folders, i)
        invariant !FoldersOpen(p, k, folders, |folders|)
        decreases |folders| - i
      {
        i := i + 1;
      }
    }
  }

  /** The first item that does not decrypt decides how the items fail. */
  lemma CiphersOutcome(p: Primitives, k: Keys, ciphers: seq<Cipher>)
    ensures DecryptCiphers(p, k, ciphers).Ok? <==> CiphersOpen(p, k, ciphers, |ciphers|)
    ensures DecryptCiphers(p, k, ciphers).Panic?
       <==> exists i :: 0 <= i < |ciphers| && CiphersOpen(p, k, ciphers, i) && DecryptCipher(p, k, ciphers[i]).Panic?
  {
    hide DecryptCipher;
    assert ciphers[..|ciphers|] == ciphers;
    CiphersOpenOk(p, k, ciphers, |ciphers|);
    forall i | 0 <= i < |ciphers| && CiphersOpen(p, k, ciphers, i) && !DecryptCipher(p, k, ciphers[i]).Ok?
      ensures DecryptCiphers(p, k, ciphers).Panic? <==> DecryptCipher(p, k, ciphers[i]).Panic?
    {
      CiphersOpenOk(p, k, ciphers, i);
      CiphersFailAt(p, k, ciphers, i);
    }
    if !CiphersOpen(p, k, ciphers, |ciphers|) {
      var i := 0;
      while DecryptCipher(p, k, ciphers[i]).Ok?
        invariant 0 <= i < |ciphers| && CiphersOpen(p, k, ciphers, i)
        invariant !CiphersOpen(p, k, ciphers, |ciphers|)
        decreases |ciphers| - i
      {
        i := i + 1;
      }
    }
  }
}
