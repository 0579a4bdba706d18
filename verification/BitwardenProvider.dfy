/** Fetching one secret from the vault (internal/provider/bitwarden.go). */
module BitwardenProviders {
  import opened Wrappers
  import opened GoStrings
  import opened GoMaps
  import opened Ciphers
  import opened Base64
  import opened CipherStrings
  import opened VaultItems
  import opened VaultDecryption
  import opened BitwardenClients
  import opened SecretPaths
  import BitwardenRefs

  datatype FetchError =
    | InvalidReference(reference: BitwardenRefs.RefError)
    | Reauthentication(cause: ClientError)
    | Lookup(cause: ClientError)
    | NoFields
    | FieldNotFound(field: string)

  type Secret = map<string, string>

  /** The map of an item, or of one of its fields. */
  function Extract(item: DecryptedItem, field: string): Result<Secret, FetchError> {
    var secrets := SecretMap(item);
    if secrets == map[] then Failure(NoFields)
    else if field == "" then Success(secrets)
    else if field in secrets then Success(map[field := secrets[field]])
    else Failure(FieldNotFound(field))
  }

  function FetchFromVault(v: Vault, order: seq<string>, ref: BitwardenRefs.BitwardenReference): Result<Secret, FetchError> {
    match Find(v, order, ref.folder, ref.itemName)
    case Failure(e) => Failure(Lookup(e))
    case Success(item) => Extract(item, ref.field)
  }

  class BitwardenProvider {
    const client: BitwardenClient
    const password: string

    constructor (client: BitwardenClient, password: string)
      ensures this.client == client && this.password == password
    {
      this.client, this.password := client, password;
    }

    /**
     * One call without interference. `validAt` and `authenticatedAt` are the
     * times of the two checks, `order` is how Go iterates a folder map.
     */
    method FetchSecret(path: string, validAt: int, authenticatedAt: int, env: AuthEnv, order: map<string, string> -> seq<string>)
      returns (r: Outcome<Secret, FetchError>)
      requires forall folders :: Iterates(order(folders), folders)
      modifies client
      ensures match BitwardenRefs.Parse(path)
              case Failure(e) => r == Err(InvalidReference(e)) && unchanged(client)
              case Success(ref) =>
                if validAt < old(client.expiry) && old(client.accessToken) != "" && authenticatedAt < old(client.tokenExpiry) then
                  && unchanged(client)
                  && r == ToOutcome(FetchFromVault(Vault(client.folders, client.items), order(client.folders), ref))
                else
                  match AuthResult(client.p, client.email, password, env)
                  case Ok(v) =>
                    && client.folders == v.folders && client.items == v.items
                    && client.expiry == env.sync.now + client.cacheTTL
                    && client.accessToken == env.token.value.accessToken
                    && client.tokenExpiry == env.loginAt + env.token.value.expiresIn * Backoff.SECOND
                    && r == ToOutcome(FetchFromVault(v, order(v.folders), ref))
                  case Err(e) =>
                    && r == Err(Reauthentication(e))
                    && client.folders == old(client.folders) && client.items == old(client.items)
                    && client.expiry == old(client.expiry)
                  case Panic =>
                    && r == Panic
                    && client.folders == old(client.folders) && client.items == old(client.items)
                    && client.expiry == old(client.expiry)
    {
      var parsed := BitwardenRefs.ParseBitwardenReference(path);
      if parsed.Failure? {
        return Err(InvalidReference(parsed.error));
      }
      var ref := parsed.value;
      if BitwardenRefs.Validate(ref).Some? {
        BitwardenRefs.AcceptedIsValid(path);
        assert false; // the parser only accepts valid references
      }
      if !client.IsCacheValid(validAt) || !client.IsAuthenticated(authenticatedAt) {
        var authenticated := client.Authenticate(password, env);
        match authenticated
        case Ok(_) =>
        case Err(e) => return Err(Reauthentication(e));
        case Panic => return Panic;
      }
      r := AnswerFor(order(client.folders), ref);
    }

    /** FetchSecret, once the cache is good. */
    method AnswerFor(order: seq<string>, ref: BitwardenRefs.BitwardenReference) returns (r: Outcome<Secret, FetchError>)
      requires forall i :: 0 <= i < |order| ==> order[i] in client.folders
      ensures r == ToOutcome(FetchFromVault(Vault(client.folders, client.items), order, ref))
    {
      var found := client.FindItem(order, ref.folder, ref.itemName);
      if found.Failure? {
        return Err(Lookup(found.error));
      }
      var secrets := ToSecretMap(found.value);
      if secrets == map[] {
        return Err(NoFields);
      }
      if ref.HasField() {
        if ref.field !in secrets {
          return Err(FieldNotFound(ref.field));
        }
        secrets := map[ref.field := secrets[ref.field]];
      }
      return Ok(secrets);
    }
  }

  function ToOutcome<T, E>(r: Result<T, E>): Outcome<T, E> {
    match r
    case Success(v) => Ok(v)
    case Failure(e) => Err(e)
  }

  // ----- against the plaintext vault -----

  /** Folder IDs and names identify folders, and no ID is empty. */
  ghost predicate UniqueFolders(folders: seq<Folder>) {
    && (forall i :: 0 <= i < |folders| ==> folders[i].id != "")
    && (forall i, j :: 0 <= i < j < |folders| ==> folders[i].id != folders[j].id && folders[i].name != folders[j].name)
  }

  lemma {:induction false} FolderMapEntries(folders: seq<Folder>, i: nat)
    requires UniqueFolders(folders) && i < |folders|
    ensures folders[i].id in FolderMap(folders) && FolderMap(folders)[folders[i].id] == folders[i].name
  {
    var n := |folders| - 1;
    if i < n {
      FolderMapEntries(folders[..n], i);
    }
  }

  lemma {:induction false} FolderMapKeys(folders: seq<Folder>, id: string)
    requires id in FolderMap(folders)
    ensures exists i :: 0 <= i < |folders| && folders[i].id == id && FolderMap(folders)[id] == folders[i].name
  {
    var n := |folders| - 1;
    if id != folders[n].id {
      FolderMapKeys(folders[..n], id);
      var i :| 0 <= i < n && folders[..n][i].id == id && FolderMap(folders[..n])[id] == folders[..n][i].name;
      assert folders[i].id == id;
    }
  }

  /** The folder loop finds the folder by its name, in any iteration order. */
  lemma FolderIdFound(folders: seq<Folder>, order: seq<string>, f: nat)
    requires UniqueFolders(folders) && f < |folders| && Iterates(order, FolderMap(folders))
    ensures FolderId(FolderMap(folders), order, folders[f].name) == folders[f].id
  {
    var m, name := FolderMap(folders), folders[f].name;
    var id := FolderId(m, order, name);
    FolderIdNamed(m, order, name);
    FolderMapEntries(folders, f);
    assert folders[f].id in order;
    assert id in m && m[id] == name;
    FolderMapKeys(folders, id);
    var i :| 0 <= i < |folders| && folders[i].id == id && m[id] == folders[i].name;
    assert i == f;
  }

  lemma FolderIdMissing(folders: seq<Folder>, order: seq<string>, name: string)
    requires UniqueFolders(folders) && Iterates(order, FolderMap(folders))
    requires forall i :: 0 <= i < |folders| ==> folders[i].name != name
    ensures FolderId(FolderMap(folders), order, name) == ""
  {
    var m := FolderMap(folders);
    var id := FolderId(m, order, name);
    FolderIdNamed(m, order, name);
    if id in m {
      FolderMapKeys(folders, id);
    }
  }

  /** What is made of an item: its whole map, one entry of it, or an error when there is nothing. */
  ghost predicate PlainSecret(item: DecryptedItem, field: string, r: Result<Secret, FetchError>) {
    var m := SecretMap(item);
    match r
    case Success(secret) => m != map[] && secret == (if field == "" then m else map key | key in m && key == field :: m[key]) && secret != map[]
    case Failure(NoFields) => m == map[]
    case Failure(FieldNotFound(f)) => m != map[] && f == field && field != "" && field !in m
    case _ => false
  }

  /** The secret at folder/item[/field] in a plaintext vault, by the names and IDs alone. */
  ghost predicate PlainAnswer(folders: seq<Folder>, items: seq<DecryptedItem>, folder: string, item: string, field: string,
                              r: Result<Secret, FetchError>) {
    || (r == Failure(Lookup(FolderNotFound))
        && forall f :: 0 <= f < |folders| ==> folders[f].name != folder)
    || (exists f :: 0 <= f < |folders| && folders[f].name == folder
          && r == Failure(Lookup(ItemNotFound))
          && forall i :: 0 <= i < |items| ==> items[i].folderId != Some(folders[f].id) || items[i].name != item)
    || (exists f, i :: 0 <= f < |folders| && folders[f].name == folder
          && IsFirstMatch(items, folders[f].id, item, i)
          && PlainSecret(items[i], field, r))
  }

  lemma ExtractIsPlain(item: DecryptedItem, field: string)
    ensures PlainSecret(item, field, Extract(item, field))
  {
    var m := SecretMap(item);
    if field in m {
      assert map[field := m[field]] == map key | key in m && key == field :: m[key];
      assert field in map[field := m[field]];
    }
    hide SecretMap;
  }

  lemma FetchAnswers(folders: seq<Folder>, items: seq<DecryptedItem>, order: seq<string>, ref: BitwardenRefs.BitwardenReference)
    requires UniqueFolders(folders) && Iterates(order, FolderMap(folders))
    ensures PlainAnswer(folders, items, ref.folder, ref.itemName, ref.field,
                        FetchFromVault(Vault(FolderMap(folders), items), order, ref))
  {
    if f :| 0 <= f < |folders| && folders[f].name == ref.folder {
      var id := folders[f].id;
      FolderIdFound(folders, order, f);
      FirstItemIs(items, id, ref.itemName);
      hide Extract, PlainSecret;
      if i :| IsFirstMatch(items, id, ref.itemName, i) {
        ExtractIsPlain(items[i], ref.field);
      }
    } else {
      FolderIdMissing(folders, order, ref.folder);
    }
  }

  /**
   * The whole pipeline: a vault encrypted by its owner, authenticated with the
   * master password, synced through retries, and queried with an escaped path,
   * answers as the plaintext vault does.
   */
  lemma EndToEnd(p: Primitives, email: string, password: string, env: AuthEnv, key: seq<byte>, iv: Block,
                 folders: seq<Folder>, items: seq<DecryptedItem>, response: SyncResponse, n: nat,
                 order: seq<string>, parts: seq<string>, components: seq<string>)
    requires Lawful(p) && |key| == SYMMETRIC_KEY_LENGTH
    requires env.prelogin.Some? && env.prelogin.value.kdf == 0 && env.token.Some?
    requires var k := StretchedKeys(p, email, password, env.prelogin.value.iterations);
             env.token.value.key == Seal(p, k.enc, k.mac.value, iv, key)
    requires VaultSealed(p, Keys(key[..32], Some(key[32..])), folders, items, response)
    requires AnsweredAt(env.sync, response, 0, n)
    requires UniqueFolders(folders) && Iterates(order, FolderMap(folders))
    requires 2 <= |components| <= 3 && EncodeAll(parts, components)
    ensures var vault := AuthResult(p, email, password, env);
            var ref := BitwardenRefs.Parse("bw://" + Join(parts, '/'));
            && vault.Ok? && ref.Success?
            && PlainAnswer(folders, items, components[0], components[1], if |components| == 3 then components[2] else "",
                           FetchFromVault(vault.value, order, ref.value))
  {
    AuthenticationRecoversVault(p, email, password, env, key, iv, folders, items, response, n);
    BitwardenRefs.ParseEncoded(parts, components);
    var ref := BitwardenRefs.Parse("bw://" + Join(parts, '/')).value;
    FetchAnswers(folders, items, order, ref);
  }

  /**
   * Of any two accepted paths to one item, the one with a field gives exactly
   * that entry of what the one without gives.
   */
  lemma FieldRestricts(v: Vault, order: seq<string>, path: string, fieldPath: string)
    requires BitwardenRefs.Parse(path).Success? && !BitwardenRefs.Parse(path).value.HasField()
    requires BitwardenRefs.Parse(fieldPath).Success? && BitwardenRefs.Parse(fieldPath).value.HasField()
    requires BitwardenRefs.Parse(fieldPath).value.(field := "") == BitwardenRefs.Parse(path).value
    ensures var whole, part := BitwardenRefs.Parse(path).value, BitwardenRefs.Parse(fieldPath).value;
            FetchFromVault(v, order, part)
            == match FetchFromVault(v, order, whole)
               case Failure(e) => Failure(e)
               case Success(m) =>
                 if part.field in m then Success(map[part.field := m[part.field]]) else Failure(FieldNotFound(part.field))
  {
    hide BitwardenRefs.Parse;
  }

  /** A field is added to any accepted path without one by appending it, encoded. */
  lemma FieldAppended(path: string, part: string, field: string)
    requires BitwardenRefs.Parse(path).Success? && !BitwardenRefs.Parse(path).value.HasField()
    requires field != "" && '/' !in part && Encodes(part, field)
    ensures BitwardenRefs.Parse(path + "/" + part) == Success(BitwardenRefs.Parse(path).value.(field := field))
  {
    var ref := BitwardenRefs.Parse(path).value;
    BitwardenRefs.AcceptedIff(path, ref);
    ComponentsAppend(path[5..], part, field);
    NoEmptyComponent(path[5..]);
    Suffixed(path, part);
    hide BitwardenRefs.Parse, Components, Encodes;
    BitwardenRefs.AcceptedIff(path + "/" + part, ref.(field := field));
  }

  lemma NoEmptyComponent(path: string)
    requires Components(path).Success?
    ensures forall i :: 0 <= i < |Components(path).value| ==> Components(path).value[i] != ""
  {
    var parts := Components(path).value;
    assert forall i :: 0 <= i < |parts| ==> parts[i] in parts;
  }

  lemma Suffixed(path: string, part: string)
    requires |path| >= 5
    ensures (path + "/" + part)[..5] == path[..5] && (path + "/" + part)[5..] == path[5..] + "/" + part
  {
  }
}
