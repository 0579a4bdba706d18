/**
 * encoding/base64's StdEncoding (section 4 of RFC 4648). The decoder is Go's:
 * it ignores CR and LF anywhere, insists on padding, and ignores the unused
 * low bits of the last character.
 */
module Base64 {
  import opened Wrappers

  type byte = x: int | 0 <= x < 256

  function ToChar(i: int): char
    requires 0 <= i < 64
  {
    if i < 26 then (65 + i) as char
    else if i < 52 then (97 + i - 26) as char
    else if i < 62 then (48 + i - 52) as char
    else if i == 62 then '+'
    else '/'
  }

  function FromChar(c: char): (r: Option<int>)
    ensures r.Some? ==> 0 <= r.value < 64
  {
    var n := c as int;
    if 65 <= n <= 90 then Some(n - 65)
    else if 97 <= n <= 122 then Some(n - 97 + 26)
    else if 48 <= n <= 57 then Some(n - 48 + 52)
    else if c == '+' then Some(62)
    else if c == '/' then Some(63)
    else None
  }

  lemma FromToChar(i: int)
    requires 0 <= i < 64
    ensures FromChar(ToChar(i)) == Some(i)
  {
  }

  // Three bytes a b c are the sextets First(a) Second(a,b) Third(b,c) Fourth(c).

  function First(a: byte): (r: int)
    ensures 0 <= r < 64
  {
    a / 4
  }

  function Second(a: byte, b: byte): (r: int)
    ensures 0 <= r < 64
  {
    a % 4 * 16 + b / 16
  }

  function Third(b: byte, c: byte): (r: int)
    ensures 0 <= r < 64
  {
    b % 16 * 4 + c / 64
  }

  function Fourth(c: byte): (r: int)
    ensures 0 <= r < 64
  {
    c % 64
  }

  function EncodeQuantum(a: byte, b: byte, c: byte): (s: string)
    ensures |s| == 4
  {
    [ToChar(First(a)), ToChar(Second(a, b)), ToChar(Third(b, c)), ToChar(Fourth(c))]
  }

  function Encode(b: seq<byte>): (s: string)
    ensures |s| % 4 == 0
  {
    if b == [] then ""
    else if |b| == 1 then
      [ToChar(First(b[0])), ToChar(Second(b[0], 0)), '=', '=']
    else if |b| == 2 then
      [ToChar(First(b[0])), ToChar(Second(b[0], b[1])), ToChar(Third(b[1], 0)), '=']
    else
      EncodeQuantum(b[0], b[1], b[2]) + Encode(b[3..])
  }

  // Four sextets x y z w are the bytes High(x,y) Middle(y,z) Low(z,w).

  function High(x: int, y: int): byte
    requires 0 <= x < 64 && 0 <= y < 64
  {
    x * 4 + y / 16
  }

  function Middle(y: int, z: int): byte
    requires 0 <= y < 64 && 0 <= z < 64
  {
    y % 16 * 16 + z / 4
  }

  function Low(z: int, w: int): byte
    requires 0 <= z < 64 && 0 <= w < 64
  {
    z % 4 * 64 + w
  }

  lemma Regroup(a: byte, b: byte, c: byte)
    ensures High(First(a), Second(a, b)) == a
    ensures Middle(Second(a, b), Third(b, c)) == b
    ensures Low(Third(b, c), Fourth(c)) == c
  {
  }

  lemma RegroupOne(a: byte)
    ensures High(First(a), Second(a, 0)) == a
  {
  }

  lemma RegroupTwo(a: byte, b: byte)
    ensures High(First(a), Second(a, b)) == a
    ensures Middle(Second(a, b), Third(b, 0)) == b
  {
  }

  function DropNewlines(s: string): string {
    if s == "" then ""
    else if s[0] == '\r' || s[0] == '\n' then DropNewlines(s[1..])
    else [s[0]] + DropNewlines(s[1..])
  }

  /** The decoder on input without CR and LF, quantum by quantum. */
  function DecodeQuanta(s: string): Option<seq<byte>> {
    if s == "" then Some([])
    else if |s| < 4 then None
    else
      match (FromChar(s[0]), FromChar(s[1]), FromChar(s[2]), FromChar(s[3]))
      case (Some(x0), Some(x1), Some(x2), Some(x3)) =>
        (match DecodeQuanta(s[4..])
         case Some(rest) => Some([High(x0, x1), Middle(x1, x2), Low(x2, x3)] + rest)
         case None => None)
      case (Some(x0), Some(x1), Some(x2), None) =>
        if s[3] == '=' && |s| == 4 then Some([High(x0, x1), Middle(x1, x2)]) else None
      case (Some(x0), Some(x1), None, _) =>
        if s[2] == '=' && s[3] == '=' && |s| == 4 then Some([High(x0, x1)]) else None
      case _ => None
  }

  /** base64.StdEncoding.DecodeString; None is its CorruptInputError. */
  function Decode(s: string): Option<seq<byte>> {
    DecodeQuanta(DropNewlines(s))
  }

  predicate InAlphabet(c: char) {
    FromChar(c).Some? || c == '='
  }

  lemma {:induction false} EncodeAlphabet(b: seq<byte>)
    ensures forall c :: c in Encode(b) ==> InAlphabet(c)
  {
    if |b| > 2 {
      EncodeAlphabet(b[3..]);
    }
  }

  lemma NoNewlines(s: string)
    requires forall c :: c in s ==> InAlphabet(c)
    ensures DropNewlines(s) == s
  {
    assert !InAlphabet('\r') && !InAlphabet('\n');
    NothingToSkip(s);
  }

  lemma EqualsIsPadding()
    ensures FromChar('=') == None
  {
  }

  lemma DecodeEncodeOne(b: seq<byte>)
    requires |b| == 1
    ensures DecodeQuanta(Encode(b)) == Some(b)
  {
    hide ToChar, FromChar, First, Second, High;
    EqualsIsPadding();
    RegroupOne(b[0]);
    FromToChar(First(b[0]));
    FromToChar(Second(b[0], 0));
    assert b == [b[0]];
  }

  lemma DecodeEncodeTwo(b: seq<byte>)
    requires |b| == 2
    ensures DecodeQuanta(Encode(b)) == Some(b)
  {
    hide ToChar, FromChar, First, Second, Third, High, Middle;
    EqualsIsPadding();
    RegroupTwo(b[0], b[1]);
    FromToChar(First(b[0]));
    FromToChar(Second(b[0], b[1]));
    FromToChar(Third(b[1], 0));
    assert b == [b[0], b[1]];
  }

  lemma DecodeEncodeQuantum(b: seq<byte>)
    requires |b| > 2
    requires DecodeQuanta(Encode(b[3..])) == Some(b[3..])
    ensures DecodeQuanta(Encode(b)) == Some([b[0], b[1], b[2]] + b[3..])
  {
    hide ToChar, FromChar, First, Second, Third, Fourth, High, Middle, Low;
    Regroup(b[0], b[1], b[2]);
    FromToChar(First(b[0]));
    FromToChar(Second(b[0], b[1]));
    FromToChar(Third(b[1], b[2]));
    FromToChar(Fourth(b[2]));
    var s := Encode(b);
    assert s[4..] == Encode(b[3..]);
    assert |s| >= 4;
  }

  lemma FirstThree(b: seq<byte>)
    requires |b| > 2
    ensures b == [b[0], b[1], b[2]] + b[3..]
  {
  }

  lemma {:induction false} DecodeEncodeQuanta(b: seq<byte>)
    ensures DecodeQuanta(Encode(b)) == Some(b)
  {
    if b != [] {
      hide Encode, DecodeQuanta;
      if |b| == 1 {
        DecodeEncodeOne(b);
      } else if |b| == 2 {
        DecodeEncodeTwo(b);
      } else {
        DecodeEncodeQuanta(b[3..]);
        DecodeEncodeQuantum(b);
        FirstThree(b);
      }
    }
  }

  /** Every byte string survives encoding and decoding. */
  lemma DecodeEncode(b: seq<byte>)
    ensures Decode(Encode(b)) == Some(b)
  {
    EncodeAlphabet(b);
    NoNewlines(Encode(b));
    DecodeEncodeQuanta(b);
  }

  // ----- the decoder against table 1 of the RFC -----

  const UPPER := "ABCDEFGHIJKLMNOPQRSTUVWXYZ"
  const LOWER := "abcdefghijklmnopqrstuvwxyz"
  const DIGITS := "0123456789"
  const ALPHABET := UPPER + LOWER + DIGITS + "+/"

  /** c stands for the sextet i. */
  ghost predicate Stands(c: char, i: int) {
    0 <= i < 64 && c == ALPHABET[i]
  }

  lemma FromCharIff(c: char, i: int)
    ensures FromChar(c) == Some(i) <==> Stands(c, i)
  {
    if 0 <= i < 64 {
      ToCharInAlphabet(i);
    }
  }

  lemma ToCharInAlphabet(i: int)
    requires 0 <= i < 64
    ensures ToChar(i) == ALPHABET[i]
  {
    if i < 26 {
      assert ALPHABET[i] == UPPER[i];
    } else if i < 52 {
      assert ALPHABET[i] == LOWER[i - 26];
    } else if i < 62 {
      assert ALPHABET[i] == DIGITS[i - 52];
    }
  }

  /** Four characters are the 24 bits of three bytes, big-endian. */
  ghost predicate WholeQuantum(s: string, b: seq<byte>)
    requires |s| >= 4 && |b| >= 3
  {
    exists x, y, z, w :: Stands(s[0], x) && Stands(s[1], y) && Stands(s[2], z) && Stands(s[3], w)
      && b[0] as int * 65536 + b[1] as int * 256 + b[2] as int == x * 262144 + y * 4096 + z * 64 + w
  }

  /** A padded quantum is the leading bits of its characters; Go ignores the bits left over. */
  ghost predicate PaddedQuantum(s: string, b: seq<byte>) {
    || (|s| == 4 && |b| == 2 && s[3] == '='
        && exists x, y, z :: Stands(s[0], x) && Stands(s[1], y) && Stands(s[2], z)
             && b[0] as int * 256 + b[1] as int == (x * 4096 + y * 64 + z) / 4)
    || (|s| == 4 && |b| == 1 && s[2] == '=' && s[3] == '='
        && exists x, y :: Stands(s[0], x) && Stands(s[1], y) && b[0] == (x * 64 + y) / 16)
  }

  /** The decoding of a text without CR and LF, as a relation. */
  ghost predicate Decodes(s: string, b: seq<byte>)
    decreases |s|
  {
    || (s == "" && b == [])
    || (|s| >= 4 && |b| >= 3 && WholeQuantum(s, b) && Decodes(s[4..], b[3..]))
    || PaddedQuantum(s, b)
  }

  lemma WholeValue(x: int, y: int, z: int, w: int, a: byte, b: byte, c: byte)
    requires 0 <= x < 64 && 0 <= y < 64 && 0 <= z < 64 && 0 <= w < 64
    ensures a == High(x, y) && b == Middle(y, z) && c == Low(z, w)
       <==> a as int * 65536 + b as int * 256 + c as int == x * 262144 + y * 4096 + z * 64 + w
  {
  }

  lemma PaddedValue(x: int, y: int, z: int, a: byte, b: byte)
    requires 0 <= x < 64 && 0 <= y < 64 && 0 <= z < 64
    ensures a == High(x, y) && b == Middle(y, z) <==> a as int * 256 + b as int == (x * 4096 + y * 64 + z) / 4
    ensures a == High(x, y) <==> a == (x * 64 + y) / 16
  {
  }

  /** The sextet of a character, or -1. */
  function Sextet(c: char): int {
    if FromChar(c).Some? then FromChar(c).value else -1
  }

  lemma StandsIff(c: char, i: int)
    ensures Stands(c, i) <==> i >= 0 && Sextet(c) == i
  {
    FromCharIff(c, i);
  }

  lemma WholeQuantumIff(s: string, b: seq<byte>)
    requires |s| >= 4 && |b| >= 3
    ensures var x, y, z, w := Sextet(s[0]), Sextet(s[1]), Sextet(s[2]), Sextet(s[3]);
            WholeQuantum(s, b)
            <==> x >= 0 && y >= 0 && z >= 0 && w >= 0 && b[0] == High(x, y) && b[1] == Middle(y, z) && b[2] == Low(z, w)
  {
    var x, y, z, w := Sextet(s[0]), Sextet(s[1]), Sextet(s[2]), Sextet(s[3]);
    forall c, i
      ensures Stands(c, i) <==> i >= 0 && Sextet(c) == i
    {
      StandsIff(c, i);
    }
    if x >= 0 && y >= 0 && z >= 0 && w >= 0 {
      assert Stands(s[0], x) && Stands(s[1], y) && Stands(s[2], z) && Stands(s[3], w);
      WholeValue(x, y, z, w, b[0], b[1], b[2]);
    }
    hide Stands, FromChar, High, Middle, Low;
  }

  lemma PaddedQuantumIff(s: string, b: seq<byte>)
    requires |s| == 4
    ensures var x, y, z := Sextet(s[0]), Sextet(s[1]), Sextet(s[2]);
            PaddedQuantum(s, b)
            <==> || (x >= 0 && y >= 0 && z >= 0 && s[3] == '=' && b == [High(x, y), Middle(y, z)])
                 || (x >= 0 && y >= 0 && s[2] == '=' && s[3] == '=' && b == [High(x, y)])
  {
    var x, y, z := Sextet(s[0]), Sextet(s[1]), Sextet(s[2]);
    forall c, i
      ensures Stands(c, i) <==> i >= 0 && Sextet(c) == i
    {
      StandsIff(c, i);
    }
    if x >= 0 && y >= 0 && |b| > 0 {
      assert Stands(s[0], x) && Stands(s[1], y);
      PaddedValue(x, y, 0, b[0], b[0]);
      if z >= 0 && |b| > 1 {
        assert Stands(s[2], z);
        PaddedValue(x, y, z, b[0], b[1]);
      }
    }
    hide Stands, FromChar, High, Middle, Low;
  }

  lemma {:induction false} DecodesIff(s: string, b: seq<byte>)
    ensures DecodeQuanta(s) == Some(b) <==> Decodes(s, b)
    decreases |s|
  {
    if |s| >= 4 {
      EqualsIsPadding();
      if |b| >= 3 {
        WholeQuantumIff(s, b);
        DecodesIff(s[4..], b[3..]);
        assert b == [b[0], b[1], b[2]] + b[3..];
      }
      if |s| == 4 {
        PaddedQuantumIff(s, b);
      }
      hide FromChar, WholeQuantum, PaddedQuantum, High, Middle, Low;
    }
  }

  // ----- line breaks -----

  lemma {:induction false} DropNewlinesConcat(a: string, b: string)
    ensures DropNewlines(a + b) == DropNewlines(a) + DropNewlines(b)
  {
    if a == "" {
      assert a + b == b;
    } else {
      assert (a + b)[1..] == a[1..] + b;
      DropNewlinesConcat(a[1..], b);
    }
  }

  /** What the decoder accepts, and as what: CR and LF count for nothing, anything else must decode. */
  lemma DecodeIff(a: string, c: char, z: string, b: seq<byte>)
    ensures c == '\r' || c == '\n' ==> Decode(a + [c] + z) == Decode(a + z)
    ensures '\r' !in a && '\n' !in a ==> (Decode(a) == Some(b) <==> Decodes(a, b))
  {
    DropNewlinesConcat(a, [c] + z);
    DropNewlinesConcat([c], z);
    DropNewlinesConcat(a, z);
    assert a + [c] + z == a + ([c] + z);
    assert [c][1..] == "";
    if '\r' !in a && '\n' !in a {
      NothingToSkip(a);
      DecodesIff(a, b);
    }
  }

  lemma {:induction false} NothingToSkip(s: string)
    requires '\r' !in s && '\n' !in s
    ensures DropNewlines(s) == s
  {
    if s != "" {
      NothingToSkip(s[1..]);
    }
  }
}
