/** Vault records, encrypted and decrypted, and the secret map of an item (internal/provider/bitwarden_types.go). */
module VaultItems {
  import opened Wrappers

  // ----- as synced -----

  datatype SyncFolder = SyncFolder(id: string, name: string)

  datatype CipherLogin = CipherLogin(username: string, password: string, totp: string, uris: seq<string>)

  datatype CipherCard = CipherCard(
    cardholderName: string, brand: string, number: string, expMonth: string, expYear: string, code: string)

  datatype CipherField = CipherField(name: string, value: string, kind: int)

  datatype Cipher = Cipher(
    id: string,
    folderId: Option<string>,
    kind: int,
    name: string,
    notes: Option<string>,
    login: Option<CipherLogin>,
    card: Option<CipherCard>,
    fields: seq<CipherField>
  )

  datatype SyncResponse = SyncResponse(folders: seq<SyncFolder>, ciphers: seq<Cipher>)

  // ----- decrypted -----

  datatype DecryptedLogin = DecryptedLogin(username: string, password: string, totp: string, uris: seq<string>)

  datatype DecryptedCard = DecryptedCard(
    cardholderName: string, brand: string, number: string, expMonth: string, expYear: string, code: string)

  datatype DecryptedField = DecryptedField(name: string, value: string, kind: int)

  datatype DecryptedItem = DecryptedItem(
    id: string,
    name: string,
    kind: int,
    typeName: string,
    notes: string,
    login: Option<DecryptedLogin>,
    card: Option<DecryptedCard>,
    fields: seq<DecryptedField>,
    folderId: Option<string>
  )

  /** fmt's %d */
  function Decimal(n: int): string
    decreases n < 0, if n < 0 then -n else n
  {
    if n < 0 then "-" + Decimal(-n)
    else if n < 10 then [(48 + n) as char]
    else Decimal(n / 10) + [(48 + n % 10) as char]
  }

  function TypeName(kind: int): string {
    if kind == 1 then "Login"
    else if kind == 2 then "SecureNote"
    else if kind == 3 then "Card"
    else if kind == 4 then "Identity"
    else "Unknown(" + Decimal(kind) + ")"
  }

  /** The number that a decimal denotes. */
  function ValueOf(s: string): int {
    if s == "" then 0
    else if s[0] == '-' then -ValueOf(s[1..])
    else 10 * ValueOf(s[..|s| - 1]) + (s[|s| - 1] as int - '0' as int)
  }

  lemma {:induction false} DecimalValue(n: int)
    ensures Decimal(n) != "" && ValueOf(Decimal(n)) == n
    ensures n >= 0 ==> forall i :: 0 <= i < |Decimal(n)| ==> '0' <= Decimal(n)[i] <= '9'
    decreases n < 0, if n < 0 then -n else n
  {
    if n < 0 {
      DecimalValue(-n);
      assert Decimal(n)[1..] == Decimal(-n);
    } else if n >= 10 {
      DecimalValue(n / 10);
      assert Decimal(n)[..|Decimal(n)| - 1] == Decimal(n / 10);
    }
  }

  /** The four item types have their names, and any other is shown with its number. */
  lemma TypeNames(kind: int)
    ensures [TypeName(1), TypeName(2), TypeName(3), TypeName(4)] == ["Login", "SecureNote", "Card", "Identity"]
    ensures kind !in {1, 2, 3, 4} ==>
              exists digits :: TypeName(kind) == "Unknown(" + digits + ")" && ValueOf(digits) == kind
  {
    DecimalValue(kind);
    if kind !in {1, 2, 3, 4} {
      assert TypeName(kind) == "Unknown(" + Decimal(kind) + ")";
    }
  }

  // ----- the secret map -----

  /** One `if value != "" { result[key] = value }`. */
  function Put(m: map<string, string>, key: string, value: string): map<string, string> {
    if value == "" then m else m[key := value]
  }

  function PutLogin(m: map<string, string>, l: DecryptedLogin): map<string, string> {
    Put(Put(Put(m, "username", l.username), "password", l.password), "totp", l.totp)
  }

  function PutCard(m: map<string, string>, c: DecryptedCard): map<string, string> {
    Put(Put(Put(Put(Put(Put(m, "cardholderName", c.cardholderName), "brand", c.brand), "number", c.number),
      "expMonth", c.expMonth), "expYear", c.expYear), "code", c.code)
  }

  predicate Usable(f: DecryptedField) {
    f.name != "" && f.value != ""
  }

  function PutFields(m: map<string, string>, fields: seq<DecryptedField>): map<string, string> {
    if fields == [] then m
    else
      var before, f := PutFields(m, fields[..|fields| - 1]), fields[|fields| - 1];
      if Usable(f) then before[f.name := f.value] else before
  }

  function BuiltInMap(item: DecryptedItem): map<string, string> {
    var m := if item.login.Some? then PutLogin(map[], item.login.value) else map[];
    if item.card.Some? then PutCard(m, item.card.value) else m
  }

  function SecretMap(item: DecryptedItem): map<string, string> {
    Put(PutFields(BuiltInMap(item), item.fields), "notes", item.notes)
  }

  /** The source, statement by statement. */
  method ToSecretMap(item: DecryptedItem) returns (result: map<string, string>)
    ensures result == SecretMap(item)
  {
    result := map[];
    if item.login.Some? {
      var login := item.login.value;
      if login.username != "" {
        result := result["username" := login.username];
      }
      if login.password != "" {
        result := result["password" := login.password];
      }
      if login.totp != "" {
        result := result["totp" := login.totp];
      }
    }
    if item.card.Some? {
      result := AddCard(result, item.card.value);
    }
    ghost var builtIn := result;
    for i := 0 to |item.fields|
      invariant result == PutFields(builtIn, item.fields[..i])
    {
      var f := item.fields[i];
      assert item.fields[..i + 1][..i] == item.fields[..i];
      if f.name != "" && f.value != "" {
        result := result[f.name := f.value];
      }
    }
    assert item.fields[..|item.fields|] == item.fields;
    if item.notes != "" {
      result := result["notes" := item.notes];
    }
  }

  method AddCard(before: map<string, string>, card: DecryptedCard) returns (result: map<string, string>)
    ensures result == PutCard(before, card)
  {
    result := before;
    if card.cardholderName != "" {
      result := result["cardholderName" := card.cardholderName];
    }
    if card.brand != "" {
      result := result["brand" := card.brand];
    }
    if card.number != "" {
      result := result["number" := card.number];
    }
    if card.expMonth != "" {
      result := result["expMonth" := card.expMonth];
    }
    if card.expYear != "" {
      result := result["expYear" := card.expYear];
    }
    if card.code != "" {
      result := result["code" := card.code];
    }
  }

  // ----- what a key maps to -----

  /** m's entry, "" for none; the maps built here hold no empty values. */
  function Lookup(m: map<string, string>, key: string): string {
    if key in m then m[key] else ""
  }

  function OrElse(value: string, other: string): string {
    if value != "" then value else other
  }

  function ValueIf(key: string, name: string, value: string): string {
    if key == name then value else ""
  }

  /** The login or card value under a key, "" for none. */
  function BuiltIn(item: DecryptedItem, key: string): string {
    var l := item.login.GetOr(DecryptedLogin("", "", "", []));
    var c := item.card.GetOr(DecryptedCard("", "", "", "", "", ""));
    OrElse(ValueIf(key, "code", c.code), OrElse(ValueIf(key, "expYear", c.expYear),
      OrElse(ValueIf(key, "expMonth", c.expMonth), OrElse(ValueIf(key, "number", c.number),
      OrElse(ValueIf(key, "brand", c.brand), OrElse(ValueIf(key, "cardholderName", c.cardholderName),
      OrElse(ValueIf(key, "totp", l.totp), OrElse(ValueIf(key, "password", l.password),
      ValueIf(key, "username", l.username)))))))))
  }

  /** i is the last usable custom field called key. */
  ghost predicate IsLastField(fields: seq<DecryptedField>, key: string, i: int) {
    && 0 <= i < |fields|
    && key != "" && fields[i].name == key && fields[i].value != ""
    && forall j :: i < j < |fields| ==> fields[j].name != key || fields[j].value == ""
  }

  lemma PutLookup(m: map<string, string>, name: string, value: string, key: string)
    ensures Lookup(Put(m, name, value), key) == OrElse(ValueIf(key, name, value), Lookup(m, key))
  {
  }

  lemma LoginLookup(m: map<string, string>, l: DecryptedLogin, key: string)
    ensures Lookup(PutLogin(m, l), key)
         == OrElse(ValueIf(key, "totp", l.totp), OrElse(ValueIf(key, "password", l.password),
              OrElse(ValueIf(key, "username", l.username), Lookup(m, key))))
  {
    hide Put, Lookup, OrElse, ValueIf;
    var m1 := Put(m, "username", l.username);
    PutLookup(m, "username", l.username, key);
    PutLookup(m1, "password", l.password, key);
    PutLookup(Put(m1, "password", l.password), "totp", l.totp, key);
  }

  lemma CardLookup(m: map<string, string>, c: DecryptedCard, key: string)
    ensures Lookup(PutCard(m, c), key)
         == OrElse(ValueIf(key, "code", c.code), OrElse(ValueIf(key, "expYear", c.expYear),
              OrElse(ValueIf(key, "expMonth", c.expMonth), OrElse(ValueIf(key, "number", c.number),
              OrElse(ValueIf(key, "brand", c.brand), OrElse(ValueIf(key, "cardholderName", c.cardholderName),
              Lookup(m, key)))))))
  {
    hide Put, Lookup, OrElse, ValueIf;
    var m1 := Put(m, "cardholderName", c.cardholderName);
    var m2 := Put(m1, "brand", c.brand);
    var m3 := Put(m2, "number", c.number);
    var m4 := Put(m3, "expMonth", c.expMonth);
    var m5 := Put(m4, "expYear", c.expYear);
    PutLookup(m, "cardholderName", c.cardholderName, key);
    PutLookup(m1, "brand", c.brand, key);
    PutLookup(m2, "number", c.number, key);
    PutLookup(m3, "expMonth", c.expMonth, key);
    PutLookup(m4, "expYear", c.expYear, key);
    PutLookup(m5, "code", c.code, key);
  }

  lemma BuiltInLookup(item: DecryptedItem, key: string)
    ensures Lookup(BuiltInMap(item), key) == BuiltIn(item, key)
  {
    var m := if item.login.Some? then PutLogin(map[], item.login.value) else map[];
    if item.login.Some? {
      LoginLookup(map[], item.login.value, key);
    }
    assert Lookup(map[], key) == "";
    assert forall name :: ValueIf(key, name, "") == "";
    assert forall v :: OrElse("", v) == v && OrElse(v, "") == v;
    hide Put, Lookup, ValueIf, OrElse, PutCard, PutLogin;
    if item.card.Some? {
      CardLookup(m, item.card.value, key);
    }
  }

  lemma {:induction false} FieldLookup(m: map<string, string>, fields: seq<DecryptedField>, key: string)
    ensures forall i :: IsLastField(fields, key, i) ==> Lookup(PutFields(m, fields), key) == fields[i].value
    ensures (forall i :: !IsLastField(fields, key, i)) ==> Lookup(PutFields(m, fields), key) == Lookup(m, key)
  {
    if fields != [] {
      var n := |fields| - 1;
      var before := fields[..n];
      FieldLookup(m, before, key);
      if Usable(fields[n]) && fields[n].name == key {
        assert IsLastField(fields, key, n);
      } else {
        forall i
          ensures IsLastField(fields, key, i) <==> IsLastField(before, key, i)
        {
        }
      }
    }
  }

  /** No entry is empty, so a key is absent exactly when its lookup is "". */
  lemma {:induction false} NoEmptyValues(m: map<string, string>, fields: seq<DecryptedField>)
    requires "" !in m.Values
    ensures "" !in PutFields(m, fields).Values
  {
    if fields != [] {
      NoEmptyValues(m, fields[..|fields| - 1]);
    }
  }

  lemma PutNonEmpty(m: map<string, string>, name: string, value: string)
    requires "" !in m.Values
    ensures "" !in Put(m, name, value).Values
  {
  }

  /**
   * Under each key: the notes before the last usable custom field before the
   * login or card value, and no entry when none of them is non-empty.
   */
  lemma SecretMapLookup(item: DecryptedItem, key: string)
    ensures var m := SecretMap(item);
            && (key == "notes" && item.notes != "" ==> Lookup(m, key) == item.notes)
            && (!(key == "notes" && item.notes != "") ==>
                  && (forall i :: IsLastField(item.fields, key, i) ==> Lookup(m, key) == item.fields[i].value)
                  && ((forall i :: !IsLastField(item.fields, key, i)) ==> Lookup(m, key) == BuiltIn(item, key)))
            && (key in m <==> Lookup(m, key) != "")
  {
    var fm := PutFields(BuiltInMap(item), item.fields);
    FieldLookup(BuiltInMap(item), item.fields, key);
    BuiltInLookup(item, key);
    PutLookup(fm, "notes", item.notes, key);
    BuiltInNonEmpty(item);
    NoEmptyValues(BuiltInMap(item), item.fields);
    PutNonEmpty(fm, "notes", item.notes);
    hide BuiltIn, BuiltInMap, PutFields;
    assert key in SecretMap(item) ==> SecretMap(item)[key] in SecretMap(item).Values;
  }

  lemma LoginNonEmpty(m: map<string, string>, l: DecryptedLogin)
    requires "" !in m.Values
    ensures "" !in PutLogin(m, l).Values
  {
    hide Put;
    var m1 := Put(m, "username", l.username);
    PutNonEmpty(m, "username", l.username);
    PutNonEmpty(m1, "password", l.password);
    PutNonEmpty(Put(m1, "password", l.password), "totp", l.totp);
  }

  lemma CardNonEmpty(m: map<string, string>, c: DecryptedCard)
    requires "" !in m.Values
    ensures "" !in PutCard(m, c).Values
  {
    hide Put;
    var m1 := Put(m, "cardholderName", c.cardholderName);
    var m2 := Put(m1, "brand", c.brand);
    var m3 := Put(m2, "number", c.number);
    var m4 := Put(m3, "expMonth", c.expMonth);
    PutNonEmpty(m, "cardholderName", c.cardholderName);
    PutNonEmpty(m1, "brand", c.brand);
    PutNonEmpty(m2, "number", c.number);
    PutNonEmpty(m3, "expMonth", c.expMonth);
    PutNonEmpty(m4, "expYear", c.expYear);
    PutNonEmpty(Put(m4, "expYear", c.expYear), "code", c.code);
  }

  lemma BuiltInNonEmpty(item: DecryptedItem)
    ensures "" !in BuiltInMap(item).Values
  {
    hide PutLogin, PutCard;
    var m := if item.login.Some? then PutLogin(map[], item.login.value) else map[];
    if item.login.Some? {
      LoginNonEmpty(map[], item.login.value);
    }
    if item.card.Some? {
      CardNonEmpty(m, item.card.value);
    }
  }
}
