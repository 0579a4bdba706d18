/** 1Password references op://vault/item[/[section/]field] (internal/provider/onepassword_ref.go). */
module OnePasswordRefs {
  import opened Wrappers
  import opened GoStrings
  import opened SecretPaths

  const PREFIX := "op://"

  datatype SecretReference = SecretReference(vault: string, item: string, section: string, field: string)

  datatype RefError =
    | MissingPrefix
    | EmptyPath
    | Undecodable(part: string)
    | MissingVaultAndItem
    | MissingItem
    | TooManyComponents
    | VaultRequired
    | ItemRequired

  /** What String prints between the slashes. */
  function Printed(r: SecretReference): seq<string> {
    if r.section != "" then [r.vault, r.item, r.section, r.field]
    else if r.field != "" then [r.vault, r.item, r.field]
    else [r.vault, r.item]
  }

  /** SecretReference.String */
  function Print(r: SecretReference): string {
    PREFIX + Join(Printed(r), '/')
  }

  /** SecretReference.Validate; None for no error. */
  function Validate(r: SecretReference): Option<RefError> {
    if r.vault == "" then Some(VaultRequired)
    else if r.item == "" then Some(ItemRequired)
    else None
  }

  function FromComponents(parts: seq<string>): Result<SecretReference, RefError> {
    if |parts| == 2 then Success(SecretReference(parts[0], parts[1], "", ""))
    else if |parts| == 3 then Success(SecretReference(parts[0], parts[1], "", parts[2]))
    else if |parts| == 4 then Success(SecretReference(parts[0], parts[1], parts[2], parts[3]))
    else if |parts| == 0 then Failure(MissingVaultAndItem)
    else if |parts| == 1 then Failure(MissingItem)
    else Failure(TooManyComponents)
  }

  function ParsePath(path: string): Result<SecretReference, RefError> {
    if path == "" then Failure(EmptyPath)
    else
      match Components(path)
      case Failure(part) => Failure(Undecodable(part))
      case Success(parts) => FromComponents(parts)
  }

  function Parse(ref: string): Result<SecretReference, RefError> {
    if !HasPrefix(ref, PREFIX) then Failure(MissingPrefix) else ParsePath(ref[|PREFIX|..])
  }

  method ParseSecretReference(ref: string) returns (r: Result<SecretReference, RefError>)
    ensures r == Parse(ref)
  {
    if !HasPrefix(ref, PREFIX) {
      return Failure(MissingPrefix);
    }
    var path := ref[|PREFIX|..];
    if path == "" {
      return Failure(EmptyPath);
    }
    var parts := PathComponents(path);
    if parts.Failure? {
      return Failure(Undecodable(parts.error));
    }
    return FromComponents(parts.value);
  }

  lemma ParsePrefixed(path: string)
    ensures Parse(PREFIX + path) == ParsePath(path)
  {
    assert (PREFIX + path)[..|PREFIX|] == PREFIX && (PREFIX + path)[|PREFIX|..] == path;
  }

  /** Two to four non-empty components, percent-encoded, are read back in their places. */
  lemma ParseEncoded(parts: seq<string>, components: seq<string>)
    requires 2 <= |components| <= 4 && EncodeAll(parts, components)
    ensures Parse("op://" + Join(parts, '/'))
         == Success(SecretReference(components[0], components[1],
                                    if |components| == 4 then components[2] else "",
                                    if |components| == 2 then "" else components[|components| - 1]))
  {
    var path := Join(parts, '/');
    ParsePrefixed(path);
    ComponentsOfEncoded(parts, components);
    NoComponents();
  }

  /**
   * Exactly the strings with the prefix, whose parts all decode and two to four
   * of whose components are not empty, are accepted; any other is an error.
   */
  lemma AcceptedIff(ref: string, r: SecretReference)
    ensures Parse(ref) == Success(r)
       <==> && HasPrefix(ref, "op://")
            && Components(ref[5..]).Success?
            && var parts := Components(ref[5..]).value;
               && 2 <= |parts| <= 4
               && r.vault == parts[0] && r.item == parts[1]
               && r.section == (if |parts| == 4 then parts[2] else "")
               && r.field == (if |parts| == 2 then "" else parts[|parts| - 1])
  {
    NoComponents();
    hide Components;
  }

  /** An accepted reference is valid, has no empty component, and names a field when it names a section. */
  lemma AcceptedIsValid(ref: string)
    requires Parse(ref).Success?
    ensures var r := Parse(ref).value;
            Validate(r) == None && (r.section != "" ==> r.field != "")
  {
    var parts := Components(ref[|PREFIX|..]).value;
    assert forall i :: 0 <= i < |parts| ==> parts[i] in parts;
  }

  /** String can express the reference: it is valid and nothing in it needs escaping. */
  predicate Printable(r: SecretReference) {
    && Validate(r) == None
    && (r.section != "" ==> r.field != "")
    && !Delimited(r.vault) && !Delimited(r.item) && !Delimited(r.section) && !Delimited(r.field)
  }

  /** Parsing undoes String exactly for the printable references. */
  lemma ParsePrintIff(r: SecretReference)
    ensures Parse(Print(r)) == Success(r) <==> Printable(r)
  {
    var parts := Printed(r);
    var path := Join(parts, '/');
    ParsePrefixed(path);
    JoinCounts(parts);
    if Validate(r) == None && (r.section != "" ==> r.field != "") {
      ComponentsOfJoinIff(parts);
      PrintedDelimited(r);
      if ParsePath(path) == Success(r) {
        ComponentsOf(Components(path).value, r);
      }
    } else if Parse(Print(r)) == Success(r) {
      AcceptedIsValid(Print(r));
    }
  }

  /** For instance a section without a field is printed with an empty last part and read back as the field. */
  lemma SectionBecomesField(r: SecretReference)
    requires r.section != "" && r.field == "" && Printable(r.(section := "", field := r.section))
    ensures Parse(Print(r)) == Success(r.(section := "", field := r.section))
  {
    var read := r.(section := "", field := r.section);
    assert Printed(r) == Printed(read) + [""];
    JoinEmptyLast(Printed(read));
    ParsePrintIff(read);
    var path := Join(Printed(read), '/');
    hide Parse, Join;
    assert Print(r) == PREFIX + (path + "/");
    assert PREFIX + path + "/" == PREFIX + (path + "/");
    ParseExtraSlashes(path, "");
  }

  lemma {:induction false} JoinEmptyLast(parts: seq<string>)
    requires parts != []
    ensures Join(parts + [""], '/') == Join(parts, '/') + "/" && (|parts| > 1 ==> Join(parts, '/') != "")
  {
    if |parts| == 1 {
      assert (parts + [""])[1..] == [""] && parts[0] + ['/'] + "" == parts[0] + "/";
    } else {
      assert (parts + [""])[1..] == parts[1..] + [""];
      JoinEmptyLast(parts[1..]);
      assert parts[0] + ['/'] + (Join(parts[1..], '/') + "/") == parts[0] + ['/'] + Join(parts[1..], '/') + "/";
    }
  }

  lemma PrintedDelimited(r: SecretReference)
    ensures (forall i :: 0 <= i < |Printed(r)| ==> !Delimited(Printed(r)[i]))
       <==> !Delimited(r.vault) && !Delimited(r.item) && !Delimited(r.section) && !Delimited(r.field)
  {
    var parts := Printed(r);
    assert parts[0] == r.vault && parts[1] == r.item;
    assert !Delimited("");
    if r.section != "" {
      assert parts[2] == r.section && parts[3] == r.field;
    } else if r.field != "" {
      assert parts[2] == r.field;
    }
  }

  /** A reference has one list of components. */
  lemma ComponentsOf(parts: seq<string>, r: SecretReference)
    requires FromComponents(parts) == Success(r) && forall p :: p in parts ==> p != ""
    ensures parts == Printed(r)
  {
    assert forall i :: 0 <= i < |parts| ==> parts[i] in parts;
  }

  /** Slashes too many, anywhere after the prefix, do not matter. */
  lemma ParseExtraSlashes(a: string, b: string)
    ensures Parse(PREFIX + a + "//" + b) == Parse(PREFIX + a + "/" + b)
    ensures b != "" ==> Parse(PREFIX + "/" + b) == Parse(PREFIX + b)
    ensures a != "" ==> Parse(PREFIX + a + "/") == Parse(PREFIX + a)
  {
    ExtraSlashes(a, b);
    assert PREFIX + a + "//" + b == PREFIX + (a + "//" + b);
    assert PREFIX + a + "/" + b == PREFIX + (a + "/" + b);
    assert PREFIX + "/" + b == PREFIX + ("/" + b);
    assert PREFIX + a + "/" == PREFIX + (a + "/");
    ParsePrefixed(a + "//" + b);
    ParsePrefixed(a + "/" + b);
    ParsePrefixed("/" + b);
    ParsePrefixed(b);
    ParsePrefixed(a + "/");
    ParsePrefixed(a);
  }
}
