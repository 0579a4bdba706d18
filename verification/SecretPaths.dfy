/**
 * What the two secret-reference parsers share: splitting a path at slashes,
 * percent-decoding the parts (section 2.1 of RFC 3986) and dropping empty ones.
 */
module SecretPaths {
  import opened Wrappers
  import opened GoStrings

  // ----- percent-encoding -----

  function HexValue(c: char): (r: Option<int>)
    ensures r.Some? ==> 0 <= r.value < 16
  {
    if '0' <= c <= '9' then Some(c as int - 48)
    else if 'a' <= c <= 'f' then Some(c as int - 97 + 10)
    else if 'A' <= c <= 'F' then Some(c as int - 65 + 10)
    else None
  }

  /** c is the n-th hexadecimal digit, in either case. */
  ghost predicate IsHex(c: char, n: int) {
    0 <= n < 16 && (c == "0123456789abcdef"[n] || c == "0123456789ABCDEF"[n])
  }

  lemma HexValueIff(c: char, n: int)
    ensures HexValue(c) == Some(n) <==> IsHex(c, n)
  {
  }

  /** url.PathUnescape; None is its EscapeError. */
  function Unescape(s: string): Option<string> {
    if s == "" then Some("")
    else if s[0] != '%' then
      match Unescape(s[1..])
      case None => None
      case Some(rest) => Some([s[0]] + rest)
    else if |s| < 3 then None
    else
      match (HexValue(s[1]), HexValue(s[2]), Unescape(s[3..]))
      case (Some(high), Some(low), Some(rest)) => Some([(high * 16 + low) as char] + rest)
      case _ => None
  }

  /** h and l are the two digits of c. */
  ghost predicate HexPair(h: char, l: char, c: char) {
    c as int < 256 && IsHex(h, c as int / 16) && IsHex(l, c as int % 16)
  }

  /**
   * The specification, for every encoder: e is v with any characters escaped, a
   * percent sign always, and the digits of each escape in either case.
   */
  ghost predicate Encodes(e: string, v: string)
    decreases |e|
  {
    if e == "" || v == "" then e == v
    else if e[0] != '%' then e[0] == v[0] && Encodes(e[1..], v[1..])
    else |e| >= 3 && HexPair(e[1], e[2], v[0]) && Encodes(e[3..], v[1..])
  }

  lemma SixteensIff(c: int, h: int, l: int)
    requires 0 <= h < 16 && 0 <= l < 16
    ensures c == h * 16 + l <==> c / 16 == h && c % 16 == l
  {
  }

  lemma HexPairIff(h: char, l: char, c: char)
    ensures HexPair(h, l, c)
       <==> HexValue(h).Some? && HexValue(l).Some? && c as int == HexValue(h).value * 16 + HexValue(l).value
  {
    var n := c as int;
    HexValueIff(h, n / 16);
    HexValueIff(l, n % 16);
    if HexValue(h).Some? && HexValue(l).Some? {
      SixteensIff(n, HexValue(h).value, HexValue(l).value);
    }
    hide HexValue, IsHex;
  }

  lemma ConsIff(c: char, rest: string, v: string)
    ensures [c] + rest == v <==> v != "" && v[0] == c && v[1..] == rest
  {
    if v != "" {
      assert v == [v[0]] + v[1..];
    }
    assert ([c] + rest)[1..] == rest;
  }

  /** Decoding accepts exactly the encodings, and returns what is encoded. */
  lemma {:induction false} UnescapeIff(s: string, v: string)
    ensures Unescape(s) == Some(v) <==> Encodes(s, v)
    decreases |s|
  {
    if s != "" {
      var n := if s[0] != '%' then 1 else 3;
      if |s| >= n {
        if v != "" {
          UnescapeIff(s[n..], v[1..]);
          if n == 3 {
            HexPairIff(s[1], s[2], v[0]);
          }
        }
        if Unescape(s[n..]).Some? {
          var rest := Unescape(s[n..]).value;
          if n == 1 {
            ConsIff(s[0], rest, v);
          } else if HexValue(s[1]).Some? && HexValue(s[2]).Some? {
            ConsIff((HexValue(s[1]).value * 16 + HexValue(s[2]).value) as char, rest, v);
          }
        }
      }
      hide HexValue, HexPair;
    }
  }

  /** One encoder: it escapes what `keep` does not name, with the digits that `digit` prints. */
  function Escape(s: string, keep: char -> bool, digit: int -> char): string
    requires IsByteString(s)
  {
    if s == "" then ""
    else
      (if keep(s[0]) then [s[0]] else ['%', digit(s[0] as int / 16), digit(s[0] as int % 16)])
      + Escape(s[1..], keep, digit)
  }

  lemma EncodesCons(rest: string, v: string, h: char, l: char)
    requires v != "" && Encodes(rest, v[1..])
    ensures v[0] != '%' ==> Encodes([v[0]] + rest, v)
    ensures HexPair(h, l, v[0]) ==> Encodes(['%', h, l] + rest, v)
  {
    assert ([v[0]] + rest)[1..] == rest && (['%', h, l] + rest)[3..] == rest;
    hide HexPair;
  }

  lemma NoSlashDigit(c: char, n: int)
    requires IsHex(c, n)
    ensures c != '/'
  {
    HexValueIff(c, n);
  }

  /** Every byte string has encodings without a slash, in whichever case the encoder prints. */
  lemma {:induction false} EscapeEncodes(s: string, keep: char -> bool, digit: int -> char)
    requires IsByteString(s) && !keep('%') && !keep('/')
    requires forall n :: 0 <= n < 16 ==> IsHex(digit(n), n)
    ensures Encodes(Escape(s, keep, digit), s) && '/' !in Escape(s, keep, digit)
  {
    if s != "" {
      EscapeEncodes(s[1..], keep, digit);
      var h, l := s[0] as int / 16, s[0] as int % 16;
      assert IsHex(digit(h), h) && IsHex(digit(l), l);
      NoSlashDigit(digit(h), h);
      NoSlashDigit(digit(l), l);
      EncodesCons(Escape(s[1..], keep, digit), s, digit(h), digit(l));
      hide Encodes, IsHex, IsByteString;
    }
  }

  /** Decoding keeps non-empty parts non-empty. */
  lemma {:induction false} UnescapeNonEmpty(s: string)
    ensures Unescape(s).Some? ==> (Unescape(s).value == "" <==> s == "")
  {
  }

  function Count(s: string, c: char): nat {
    if s == "" then 0 else (if s[0] == c then 1 else 0) + Count(s[1..], c)
  }

  lemma {:induction false} CountAbsent(s: string, c: char)
    ensures Count(s, c) == 0 <==> c !in s
  {
    if s != "" {
      CountAbsent(s[1..], c);
      assert s == [s[0]] + s[1..];
    }
  }

  lemma {:induction false} CountConcat(a: string, b: string, c: char)
    ensures Count(a + b, c) == Count(a, c) + Count(b, c)
  {
    if a == "" {
      assert a + b == b;
    } else {
      assert (a + b)[1..] == a[1..] + b;
      CountConcat(a[1..], b, c);
    }
  }

  /** Each escape shortens the string by two characters. */
  lemma {:induction false} UnescapeLength(s: string)
    requires Unescape(s).Some?
    ensures |Unescape(s).value| + 2 * Count(s, '%') == |s|
    decreases |s|
  {
    if s != "" {
      if s[0] != '%' {
        UnescapeLength(s[1..]);
      } else {
        UnescapeLength(s[3..]);
        assert s[1..][1..] == s[2..] && s[2..][1..] == s[3..];
        assert s[1] != '%' && s[2] != '%';
        assert Count(s[1..], '%') == Count(s[2..], '%') == Count(s[3..], '%');
      }
    }
  }

  lemma {:induction false} UnescapePlain(s: string)
    requires '%' !in s
    ensures Unescape(s) == Some(s)
  {
    if s != "" {
      UnescapePlain(s[1..]);
      assert s == [s[0]] + s[1..];
    }
  }

  // ----- components -----

  /** The decoding loop; the error carries the first part that does not decode. */
  function DecodeParts(parts: seq<string>): Result<seq<string>, string> {
    if parts == [] then Success([])
    else
      match Unescape(parts[0])
      case None => Failure(parts[0])
      case Some(decoded) =>
        var rest :- DecodeParts(parts[1..]);
        Success([decoded] + rest)
  }

  /** Split, decode, drop empties: the order of the source. */
  function Components(path: string): Result<seq<string>, string> {
    var decoded :- DecodeParts(Split(path, '/'));
    Success(DropEmpty(decoded))
  }

  lemma {:induction false} DecodePartsConcat(a: seq<string>, b: seq<string>)
    ensures DecodeParts(a + b)
         == if DecodeParts(a).Failure? then DecodeParts(a)
            else if DecodeParts(b).Failure? then DecodeParts(b)
            else Success(DecodeParts(a).value + DecodeParts(b).value)
  {
    if a == [] {
      assert a + b == b;
      if DecodeParts(b).Success? {
        assert [] + DecodeParts(b).value == DecodeParts(b).value;
      }
    } else {
      assert (a + b)[1..] == a[1..] + b;
      DecodePartsConcat(a[1..], b);
      if DecodeParts(a).Success? && DecodeParts(b).Success? {
        var first, rest, more := [Unescape(a[0]).value], DecodeParts(a[1..]).value, DecodeParts(b).value;
        assert first + (rest + more) == (first + rest) + more;
      }
    }
  }

  lemma DecodeOne(part: string)
    ensures DecodeParts([part]) == if Unescape(part).None? then Failure(part) else Success([Unescape(part).value])
  {
    assert [part][1..] == [];
    if Unescape(part).Some? {
      var v := Unescape(part).value;
      assert [v] + [] == [v];
    }
  }

  /** Filtering empties before decoding gives the same components, and the same error. */
  lemma {:induction false} FilterBeforeDecoding(parts: seq<string>)
    ensures DecodeParts(DropEmpty(parts))
         == match DecodeParts(parts)
            case Success(decoded) => Success(DropEmpty(decoded))
            case Failure(part) => Failure(part)
  {
    if parts != [] {
      var n := |parts| - 1;
      var before, last := parts[..n], parts[n];
      FilterBeforeDecoding(before);
      assert parts == before + [last];
      DropLast(before, last);
      UnescapeNonEmpty(last);
      DecodeOne(last);
      hide Unescape, DecodeParts, DropEmpty;
      DecodePartsConcat(before, [last]);
      DecodePartsConcat(DropEmpty(before), [last]);
      if DecodeParts(before).Success? && Unescape(last).Some? {
        var decoded, v := DecodeParts(before).value, Unescape(last).value;
        DropLast(decoded, v);
        assert DropEmpty(decoded) + [] == DropEmpty(decoded);
      }
      assert DropEmpty(before) + [] == DropEmpty(before);
    }
  }

  lemma DropLast(before: seq<string>, last: string)
    ensures DropEmpty(before + [last]) == DropEmpty(before) + if last != "" then [last] else []
  {
    assert (before + [last])[..|before|] == before;
  }

  /** Components depend only on the non-empty parts of the path. */
  lemma ComponentsOfNonEmpty(path: string)
    ensures Components(path) == DecodeParts(DropEmpty(Split(path, '/')))
  {
    FilterBeforeDecoding(Split(path, '/'));
  }

  lemma SplitEmptyPart()
    ensures Split("", '/') == [""] && DropEmpty([""]) == []
  {
    assert [""][..0] == [];
  }

  /** The non-empty parts of two paths joined by a slash are those of both. */
  lemma NonEmptyAround(a: string, b: string)
    ensures DropEmpty(Split(a + "/" + b, '/')) == DropEmpty(Split(a, '/')) + DropEmpty(Split(b, '/'))
  {
    SplitAround(a, b, '/');
    DropEmptyConcat(Split(a, '/'), Split(b, '/'));
  }

  /** Extra slashes in front of, between or behind components change nothing. */
  lemma ExtraSlashes(a: string, b: string)
    ensures Components(a + "//" + b) == Components(a + "/" + b)
    ensures Components("/" + b) == Components(b)
    ensures Components(a + "/") == Components(a)
  {
    SplitEmptyPart();
    hide Split, DropEmpty, Components;
    var da, db := DropEmpty(Split(a, '/')), DropEmpty(Split(b, '/'));
    assert [] + db == db && da + [] == da && da + ([] + db) == da + db;
    assert a + "//" + b == a + "/" + ("" + "/" + b);
    NonEmptyAround(a, "" + "/" + b);
    NonEmptyAround("", b);
    NonEmptyAround(a, b);
    NonEmptyAround(a, "");
    assert "" + "/" + b == "/" + b && a + "/" + "" == a + "/";
    ComponentsOfNonEmpty(a + "//" + b);
    ComponentsOfNonEmpty(a + "/" + b);
    ComponentsOfNonEmpty("/" + b);
    ComponentsOfNonEmpty(b);
    ComponentsOfNonEmpty(a + "/");
    ComponentsOfNonEmpty(a);
  }

  /** Each part encodes the component beside it, without a slash. */
  ghost predicate EncodeAll(parts: seq<string>, components: seq<string>) {
    && |parts| == |components|
    && forall i :: 0 <= i < |parts| ==> '/' !in parts[i] && components[i] != "" && Encodes(parts[i], components[i])
  }

  lemma DecodeCons(part: string, decoded: string, parts: seq<string>, rest: seq<string>)
    requires Unescape(part) == Some(decoded) && DecodeParts(parts) == Success(rest)
    ensures DecodeParts([part] + parts) == Success([decoded] + rest)
  {
    assert ([part] + parts)[1..] == parts;
  }

  lemma {:induction false} DecodeEncoded(parts: seq<string>, components: seq<string>)
    requires EncodeAll(parts, components)
    ensures DecodeParts(parts) == Success(components)
  {
    if parts != [] {
      UnescapeIff(parts[0], components[0]);
      DecodeEncoded(parts[1..], components[1..]);
      DecodeCons(parts[0], components[0], parts[1..], components[1..]);
      hide Encodes, Unescape, DecodeParts;
      assert parts == [parts[0]] + parts[1..] && components == [components[0]] + components[1..];
    }
  }

  lemma {:induction false} NothingToDrop(ss: seq<string>)
    requires forall i :: 0 <= i < |ss| ==> ss[i] != ""
    ensures DropEmpty(ss) == ss
  {
    if ss != [] {
      NothingToDrop(ss[..|ss| - 1]);
      assert ss == ss[..|ss| - 1] + [ss[|ss| - 1]];
    }
  }

  /** Any non-empty components, encoded and joined with slashes, are read back. */
  lemma ComponentsOfEncoded(parts: seq<string>, components: seq<string>)
    requires components != [] && EncodeAll(parts, components)
    ensures Components(Join(parts, '/')) == Success(components)
  {
    DecodeEncoded(parts, components);
    SplitJoin(parts, '/');
    NothingToDrop(components);
  }

  lemma NoComponents()
    ensures Components("") == Success([])
  {
    SplitEmptyPart();
    DecodeOne("");
  }

  /** One more encoded component is read as one more component. */
  lemma ComponentsAppend(path: string, part: string, component: string)
    requires component != "" && '/' !in part && Encodes(part, component)
    ensures Components(path + "/" + part)
         == match Components(path)
            case Success(parts) => Success(parts + [component])
            case Failure(bad) => Failure(bad)
  {
    UnescapeIff(part, component);
    UnescapeNonEmpty(part);
    SplitOne(part, '/');
    NothingToDrop([part]);
    hide Split, DropEmpty, Encodes, Components;
    NonEmptyAround(path, part);
    ComponentsOfNonEmpty(path + "/" + part);
    ComponentsOfNonEmpty(path);
    DecodePartsConcat(DropEmpty(Split(path, '/')), [part]);
    DecodeOne(part);
  }

  // ----- lengths -----

  function TotalLength(ss: seq<string>): nat {
    if ss == [] then 0 else |ss[0]| + TotalLength(ss[1..])
  }

  lemma {:induction false} TotalLengthConcat(a: seq<string>, b: seq<string>)
    ensures TotalLength(a + b) == TotalLength(a) + TotalLength(b)
  {
    if a == [] {
      assert a + b == b;
    } else {
      assert (a + b)[1..] == a[1..] + b;
      TotalLengthConcat(a[1..], b);
    }
  }

  lemma {:induction false} DropEmptyLength(ss: seq<string>)
    ensures TotalLength(DropEmpty(ss)) == TotalLength(ss)
  {
    if ss != [] {
      var n := |ss| - 1;
      DropEmptyLength(ss[..n]);
      assert ss == ss[..n] + [ss[n]];
      TotalLengthConcat(ss[..n], [ss[n]]);
      TotalLengthConcat(DropEmpty(ss[..n]), [ss[n]]);
      assert DropEmpty(ss[..n]) + [] == DropEmpty(ss[..n]);
      assert TotalLength([ss[n]]) == |ss[n]|;
    }
  }

  function TotalCount(ss: seq<string>, c: char): nat {
    if ss == [] then 0 else Count(ss[0], c) + TotalCount(ss[1..], c)
  }

  lemma {:induction false} DecodePartsLength(parts: seq<string>)
    requires DecodeParts(parts).Success?
    ensures TotalLength(DecodeParts(parts).value) + 2 * TotalCount(parts, '%') == TotalLength(parts)
  {
    if parts != [] {
      UnescapeLength(parts[0]);
      DecodePartsLength(parts[1..]);
      var rest := DecodeParts(parts[1..]).value;
      assert DecodeParts(parts).value[1..] == rest;
    }
  }

  lemma {:induction false} SplitLength(s: string, sep: char, c: char)
    requires c != sep
    ensures TotalLength(Split(s, sep)) + Count(s, sep) == |s|
    ensures TotalCount(Split(s, sep), c) == Count(s, c)
  {
    if s != "" {
      SplitLength(s[1..], sep, c);
      var rest, parts := Split(s[1..], sep), Split(s, sep);
      if s[0] == sep {
        assert parts[1..] == rest;
      } else {
        assert parts[1..] == rest[1..] && parts[0] == [s[0]] + rest[0];
        assert parts[0][1..] == rest[0];
      }
    } else {
      assert Split(s, sep)[1..] == [];
    }
  }

  /** Every slash costs a character of the path, every escape two. */
  lemma ComponentsLength(path: string)
    requires Components(path).Success?
    ensures TotalLength(Components(path).value) + Count(path, '/') + 2 * Count(path, '%') == |path|
  {
    var parts := Split(path, '/');
    SplitLength(path, '/', '%');
    DecodePartsLength(parts);
    DropEmptyLength(DecodeParts(parts).value);
  }

  // ----- reference printing without escaping -----

  predicate Delimited(s: string) {
    '/' in s || '%' in s
  }

  lemma {:induction false} JoinCounts(ss: seq<string>)
    requires ss != []
    ensures |Join(ss, '/')| == TotalLength(ss) + |ss| - 1
    ensures Count(Join(ss, '/'), '/') == TotalCount(ss, '/') + |ss| - 1
    ensures Count(Join(ss, '/'), '%') == TotalCount(ss, '%')
  {
    if |ss| == 1 {
      assert ss[1..] == [];
    } else {
      JoinCounts(ss[1..]);
      var rest := Join(ss[1..], '/');
      CountConcat(ss[0] + ['/'], rest, '/');
      CountConcat(ss[0], ['/'], '/');
      CountConcat(ss[0] + ['/'], rest, '%');
      CountConcat(ss[0], ['/'], '%');
      assert ['/'][1..] == "";
    }
  }

  lemma {:induction false} TotalCountZero(ss: seq<string>, c: char)
    ensures TotalCount(ss, c) == 0 <==> forall s :: s in ss ==> c !in s
  {
    if ss != [] {
      CountAbsent(ss[0], c);
      TotalCountZero(ss[1..], c);
      assert ss == [ss[0]] + ss[1..];
    }
  }

  lemma {:induction false} DecodePlain(parts: seq<string>)
    requires forall s :: s in parts ==> '%' !in s
    ensures DecodeParts(parts) == Success(parts)
  {
    if parts != [] {
      UnescapePlain(parts[0]);
      DecodePlain(parts[1..]);
      assert parts == [parts[0]] + parts[1..];
    }
  }

  /**
   * Joining non-empty components without escaping them is undone by parsing
   * exactly when none of them contains a slash or a percent sign. (Otherwise
   * characters are consumed, and what is read back is shorter.)
   */
  lemma ComponentsOfJoinIff(components: seq<string>)
    requires components != [] && forall i :: 0 <= i < |components| ==> components[i] != ""
    ensures Components(Join(components, '/')) == Success(components)
       <==> forall i :: 0 <= i < |components| ==> !Delimited(components[i])
  {
    if forall i :: 0 <= i < |components| ==> !Delimited(components[i]) {
      SplitJoin(components, '/');
      DecodePlain(components);
      NothingToDrop(components);
    } else {
      var i :| 0 <= i < |components| && Delimited(components[i]);
      DelimitersCost(components, i);
    }
  }

  lemma DelimitersCost(components: seq<string>, i: nat)
    requires i < |components| && Delimited(components[i])
    ensures Components(Join(components, '/')) != Success(components)
  {
    var path := Join(components, '/');
    assert components[i] in components;
    JoinCounts(components);
    TotalCountZero(components, '/');
    TotalCountZero(components, '%');
    if Components(path).Success? {
      ComponentsLength(path);
    }
  }

  // ----- the loops -----

  /** The source's two loops: decode the parts in place, then collect the non-empty ones. */
  method PathComponents(path: string) returns (r: Result<seq<string>, string>)
    ensures r == Components(path)
  {
    hide Split, Unescape;
    var split := Split(path, '/');
    var parts := new string[|split|](i requires 0 <= i < |split| => split[i]);
    assert parts[..] == split;
    for i := 0 to parts.Length
      invariant parts[i..] == split[i..]
      invariant DecodeParts(split[..i]) == Success(parts[..i])
    {
      var part := parts[i];
      assert part == parts[i..][0] == split[i..][0] == split[i];
      assert split[..i + 1] == split[..i] + [part];
      DecodePartsConcat(split[..i], [part]);
      DecodeOne(part);
      var decoded := Unescape(part);
      ghost var done := parts[..i];
      if decoded.None? {
        assert split == split[..i + 1] + split[i + 1..];
        DecodePartsConcat(split[..i + 1], split[i + 1..]);
        return Failure(part);
      }
      assert DecodeParts(split[..i + 1]) == Success(done + [decoded.value]);
      parts[i] := decoded.value;
      assert parts[..i + 1] == done + [decoded.value];
    }
    assert DecodeParts(split) == Success(parts[..]) by {
      assert split[..parts.Length] == split && parts[..parts.Length] == parts[..];
    }
    ghost var decodedParts := parts[..];
    var nonEmpty: seq<string> := [];
    for i := 0 to parts.Length
      invariant parts[..] == decodedParts
      invariant nonEmpty == DropEmpty(parts[..i])
    {
      assert parts[..i + 1] == parts[..i] + [parts[i]];
      DropLast(parts[..i], parts[i]);
      if parts[i] != "" {
        nonEmpty := nonEmpty + [parts[i]];
      }
    }
    assert parts[..parts.Length] == parts[..];
    return Success(nonEmpty);
  }
}
