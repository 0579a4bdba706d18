/** Bitwarden references bw://folder/item[/field] (internal/provider/bitwarden_ref.go). */
module BitwardenRefs {
  import opened Wrappers
  import opened GoStrings
  import opened SecretPaths

  const PREFIX := "bw://"

  datatype BitwardenReference = BitwardenReference(folder: string, itemName: string, field: string) {
    predicate HasField() {
      field != ""
    }
  }

  datatype RefError =
    | MissingPrefix
    | EmptyPath
    | Undecodable(part: string)
    | EmptyAfterParsing
    | MissingItemName
    | TooManyComponents
    | FolderRequired
    | ItemNameRequired

  function Printed(r: BitwardenReference): seq<string> {
    if r.field != "" then [r.folder, r.itemName, r.field] else [r.folder, r.itemName]
  }

  /** BitwardenSecretReference.String */
  function Print(r: BitwardenReference): string {
    PREFIX + Join(Printed(r), '/')
  }

  /** BitwardenSecretReference.Validate; None for no error. */
  function Validate(r: BitwardenReference): Option<RefError> {
    if r.folder == "" then Some(FolderRequired)
    else if r.itemName == "" then Some(ItemNameRequired)
    else None
  }

  function FromComponents(parts: seq<string>): Result<BitwardenReference, RefError> {
    if |parts| == 0 then Failure(EmptyAfterParsing)
    else if |parts| == 2 then Success(BitwardenReference(parts[0], parts[1], ""))
    else if |parts| == 3 then Success(BitwardenReference(parts[0], parts[1], parts[2]))
    else if |parts| == 1 then Failure(MissingItemName)
    else Failure(TooManyComponents)
  }

  function ParsePath(path: string): Result<BitwardenReference, RefError> {
    if path == "" then Failure(EmptyPath)
    else
      match Components(path)
      case Failure(part) => Failure(Undecodable(part))
      case Success(parts) => FromComponents(parts)
  }

  function Parse(ref: string): Result<BitwardenReference, RefError> {
    if !HasPrefix(ref, PREFIX) then Failure(MissingPrefix) else ParsePath(ref[|PREFIX|..])
  }

  method ParseBitwardenReference(ref: string) returns (r: Result<BitwardenReference, RefError>)
    ensures r == Parse(ref)
  {
    if !HasPrefix(ref, PREFIX) {
      return Failure(MissingPrefix);
    }
    var path := ref[|PREFIX|..];
    if path == "" {
      return Failure(EmptyPath);
    }
    var parts := PathComponents(path);
    if parts.Failure? {
      return Failure(Undecodable(parts.error));
    }
    return FromComponents(parts.value);
  }

  lemma ParsePrefixed(path: string)
    ensures Parse(PREFIX + path) == ParsePath(path)
  {
    assert (PREFIX + path)[..|PREFIX|] == PREFIX && (PREFIX + path)[|PREFIX|..] == path;
  }

  /** Two or three non-empty components, percent-encoded, are read back in their places. */
  lemma ParseEncoded(parts: seq<string>, components: seq<string>)
    requires 2 <= |components| <= 3 && EncodeAll(parts, components)
    ensures Parse("bw://" + Join(parts, '/'))
         == Success(BitwardenReference(components[0], components[1], if |components| == 3 then components[2] else ""))
  {
    var path := Join(parts, '/');
    ParsePrefixed(path);
    ComponentsOfEncoded(parts, components);
    NoComponents();
  }

  /**
   * Exactly the strings with the prefix, whose parts all decode and two or three
   * of whose components are not empty, are accepted; any other is an error.
   */
  lemma AcceptedIff(ref: string, r: BitwardenReference)
    ensures Parse(ref) == Success(r)
       <==> && HasPrefix(ref, "bw://")
            && Components(ref[5..]).Success?
            && var parts := Components(ref[5..]).value;
               && 2 <= |parts| <= 3
               && r.folder == parts[0] && r.itemName == parts[1]
               && r.field == (if |parts| == 3 then parts[2] else "")
  {
    NoComponents();
    hide Components;
  }

  /** FetchSecret's second check never fails. */
  lemma AcceptedIsValid(ref: string)
    requires Parse(ref).Success?
    ensures Validate(Parse(ref).value) == None
  {
    var parts := Components(ref[|PREFIX|..]).value;
    assert forall i :: 0 <= i < |parts| ==> parts[i] in parts;
  }

  /** String can express the reference: it is valid and nothing in it needs escaping. */
  predicate Printable(r: BitwardenReference) {
    Validate(r) == None && !Delimited(r.folder) && !Delimited(r.itemName) && !Delimited(r.field)
  }

  /** Parsing undoes String exactly for the printable references. */
  lemma ParsePrintIff(r: BitwardenReference)
    ensures Parse(Print(r)) == Success(r) <==> Printable(r)
  {
    var parts := Printed(r);
    var path := Join(parts, '/');
    ParsePrefixed(path);
    JoinCounts(parts);
    if Validate(r) == None {
      ComponentsOfJoinIff(parts);
      PrintedDelimited(r);
      if ParsePath(path) == Success(r) {
        ComponentsOf(Components(path).value, r);
      }
    } else if Parse(Print(r)) == Success(r) {
      AcceptedIsValid(Print(r));
    }
  }

  /** For instance an item name with a slash is printed as an item and a field. */
  lemma SlashIsLost()
    ensures Print(BitwardenReference("a", "b/c", "")) == Print(BitwardenReference("a", "b", "c"))
    ensures Parse(Print(BitwardenReference("a", "b/c", ""))) == Success(BitwardenReference("a", "b", "c"))
  {
    var r := BitwardenReference("a", "b", "c");
    assert Join(["b", "c"], '/') == "b/c" by {
      assert ["b", "c"][1..] == ["c"];
    }
    assert ["a", "b", "c"][1..] == ["b", "c"] && ["a", "b/c"][1..] == ["b/c"];
    assert Join(Printed(r), '/') == "a/b/c";
    assert Join(["a", "b/c"], '/') == "a/b/c";
    ParsePrintIff(r);
  }

  lemma PrintedDelimited(r: BitwardenReference)
    ensures (forall i :: 0 <= i < |Printed(r)| ==> !Delimited(Printed(r)[i]))
       <==> !Delimited(r.folder) && !Delimited(r.itemName) && !Delimited(r.field)
  {
    var parts := Printed(r);
    assert parts[0] == r.folder && parts[1] == r.itemName;
    assert !Delimited("");
    if r.field != "" {
      assert parts[2] == r.field;
    }
  }

  lemma ComponentsOf(parts: seq<string>, r: BitwardenReference)
    requires FromComponents(parts) == Success(r) && forall p :: p in parts ==> p != ""
    ensures parts == Printed(r)
  {
    assert forall i :: 0 <= i < |parts| ==> parts[i] in parts;
  }

  /** Slashes too many, anywhere after the prefix, do not matter. */
  lemma ParseExtraSlashes(a: string, b: string)
    ensures Parse(PREFIX + a + "//" + b) == Parse(PREFIX + a + "/" + b)
    ensures b != "" ==> Parse(PREFIX + "/" + b) == Parse(PREFIX + b)
    ensures a != "" ==> Parse(PREFIX + a + "/") == Parse(PREFIX + a)
  {
    ExtraSlashes(a, b);
    assert PREFIX + a + "//" + b == PREFIX + (a + "//" + b);
    assert PREFIX + a + "/" + b == PREFIX + (a + "/" + b);
    assert PREFIX + "/" + b == PREFIX + ("/" + b);
    assert PREFIX + a + "/" == PREFIX + (a + "/");
    ParsePrefixed(a + "//" + b);
    ParsePrefixed(a + "/" + b);
    ParsePrefixed("/" + b);
    ParsePrefixed(b);
    ParsePrefixed(a + "/");
    ParsePrefixed(a);
  }
}
