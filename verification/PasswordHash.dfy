/**
 * Stored password hashes: unpadded base64url, the `$`-joined record, and the comparison that takes
 * the same time wherever the difference is. Key derivation is a parameter.
 */
module PasswordHash {
  import Decimal
  import opened Wrappers

  /** Two bits; four of them are a byte, the highest first, and three a sextet. */
  type Two = v: int | 0 <= v < 4
  datatype Byte = Byte(a: Two, b: Two, c: Two, d: Two)
  datatype Sextet = Sextet(a: Two, b: Two, c: Two)
  type Bytes = seq<Byte>

  const PASSWORD_HASH_VERSION := "f8pbkdf2-sha256-v1"
  const PBKDF2_ITERATIONS := 50000
  const SALT_BYTES := 16
  const KEY_BYTES := 32

  // ---------------------------------------------------------------------------------------
  // Sextets
  // ---------------------------------------------------------------------------------------

  const NoBits := Byte(0, 0, 0, 0)

  function Code(x: Byte): nat {
    4 * (4 * (4 * x.a + x.b) + x.c) + x.d
  }

  function Index(v: Sextet): nat {
    4 * (4 * v.a + v.b) + v.c
  }

  function FirstSextet(x: Byte): Sextet {
    Sextet(x.a, x.b, x.c)
  }

  function SecondSextet(x: Byte, y: Byte): Sextet {
    Sextet(x.d, y.a, y.b)
  }

  function ThirdSextet(y: Byte, z: Byte): Sextet {
    Sextet(y.c, y.d, z.a)
  }

  function FourthSextet(z: Byte): Sextet {
    Sextet(z.b, z.c, z.d)
  }

  /** Three bytes are four sextets; one and two left over are two and three. */
  function Sextets(s: Bytes): seq<Sextet> {
    if |s| == 0 then []
    else if |s| == 1 then [FirstSextet(s[0]), SecondSextet(s[0], NoBits)]
    else if |s| == 2 then [FirstSextet(s[0]), SecondSextet(s[0], s[1]), ThirdSextet(s[1], NoBits)]
    else [FirstSextet(s[0]), SecondSextet(s[0], s[1]), ThirdSextet(s[1], s[2]), FourthSextet(s[2])] + Sextets(s[3..])
  }

  function FirstByte(p: Sextet, q: Sextet): Byte {
    Byte(p.a, p.b, p.c, q.a)
  }

  function SecondByte(q: Sextet, r: Sextet): Byte {
    Byte(q.b, q.c, r.a, r.b)
  }

  function ThirdByte(r: Sextet, t: Sextet): Byte {
    Byte(r.c, t.a, t.b, t.c)
  }

  /** The bytes sextets spell; bits left over are ignored. */
  function BytesOf(v: seq<Sextet>): Bytes {
    if |v| < 2 then []
    else if |v| == 2 then [FirstByte(v[0], v[1])]
    else if |v| == 3 then [FirstByte(v[0], v[1]), SecondByte(v[1], v[2])]
    else [FirstByte(v[0], v[1]), SecondByte(v[1], v[2]), ThirdByte(v[2], v[3])] + BytesOf(v[4..])
  }

  lemma LastDigit(h: int, l: int, h': int, l': int)
    requires 0 <= l < 4 && 0 <= l' < 4 && 4 * h + l == 4 * h' + l'
    ensures h == h' && l == l'
  {
  }

  lemma IndexUnique(v: Sextet, w: Sextet)
    requires Index(v) == Index(w)
    ensures v == w
  {
    LastDigit(4 * v.a + v.b, v.c, 4 * w.a + w.b, w.c);
    LastDigit(v.a, v.b, w.a, w.b);
  }

  lemma CodeUnique(x: Byte, y: Byte)
    requires Code(x) == Code(y)
    ensures x == y
  {
    LastDigit(4 * (4 * x.a + x.b) + x.c, x.d, 4 * (4 * y.a + y.b) + y.c, y.d);
    LastDigit(4 * x.a + x.b, x.c, 4 * y.a + y.b, y.c);
    LastDigit(x.a, x.b, y.a, y.b);
  }

  /** RFC 4648 section 4: a group of 24 bits, read as three bytes and as four sextets, is one number. */
  lemma GroupIsOneNumber(x: Byte, y: Byte, z: Byte)
    ensures 0x10000 * Code(x) + 0x100 * Code(y) + Code(z) ==
            0x40000 * Index(FirstSextet(x)) + 0x1000 * Index(SecondSextet(x, y))
            + 0x40 * Index(ThirdSextet(y, z)) + Index(FourthSextet(z))
  {
    Regrouped(x.a, x.b, x.c, x.d, y.a, y.b, y.c, y.d, z.a, z.b, z.c, z.d);
  }

  lemma Regrouped(a: int, b: int, c: int, d: int, e: int, f: int, g: int, h: int, i: int, j: int, k: int, l: int)
    ensures 0x10000 * (4 * (4 * (4 * a + b) + c) + d) + 0x100 * (4 * (4 * (4 * e + f) + g) + h)
            + (4 * (4 * (4 * i + j) + k) + l)
            == 0x40000 * (4 * (4 * a + b) + c) + 0x1000 * (4 * (4 * d + e) + f)
               + 0x40 * (4 * (4 * g + h) + i) + (4 * (4 * j + k) + l)
  {
  }

  lemma BytesBack(x: Byte, y: Byte, z: Byte)
    ensures FirstByte(FirstSextet(x), SecondSextet(x, y)) == x
    ensures SecondByte(SecondSextet(x, y), ThirdSextet(y, z)) == y
    ensures ThirdByte(ThirdSextet(y, z), FourthSextet(z)) == z
  {
  }

  lemma SextetsBack(p: Sextet, q: Sextet, r: Sextet, t: Sextet)
    ensures FirstSextet(FirstByte(p, q)) == p
    ensures SecondSextet(FirstByte(p, q), SecondByte(q, r)) == q
    ensures ThirdSextet(SecondByte(q, r), ThirdByte(r, t)) == r
    ensures FourthSextet(ThirdByte(r, t)) == t
    ensures SecondSextet(FirstByte(p, q), NoBits) == q <==> q.b == 0 && q.c == 0
    ensures ThirdSextet(SecondByte(q, r), NoBits) == r <==> r.c == 0
  {
  }

  lemma {:induction false} BytesOfSextets(s: Bytes)
    ensures BytesOf(Sextets(s)) == s && |Sextets(s)| % 4 != 1 && (Sextets(s) == [] <==> s == [])
  {
    hide FirstByte, SecondByte, ThirdByte, FirstSextet, SecondSextet, ThirdSextet, FourthSextet;
    if |s| >= 3 {
      BytesBack(s[0], s[1], s[2]);
      BytesOfSextets(s[3..]);
      assert Sextets(s)[4..] == Sextets(s[3..]);
      assert s == [s[0], s[1], s[2]] + s[3..];
    } else if |s| == 2 {
      BytesBack(s[0], s[1], NoBits);
    } else if |s| == 1 {
      BytesBack(s[0], NoBits, NoBits);
    }
  }

  /** The bits of the last sextet that spell no byte are zero. */
  predicate NoLooseBits(v: seq<Sextet>) {
    && (|v| % 4 == 2 ==> v[|v| - 1].b == 0 && v[|v| - 1].c == 0)
    && (|v| % 4 == 3 ==> v[|v| - 1].c == 0)
  }

  lemma SextetsPrepend(a: Byte, b: Byte, c: Byte, rest: Bytes)
    ensures Sextets([a, b, c] + rest) ==
            [FirstSextet(a), SecondSextet(a, b), ThirdSextet(b, c), FourthSextet(c)] + Sextets(rest)
  {
    hide FirstSextet, SecondSextet, ThirdSextet, FourthSextet;
    var s := [a, b, c] + rest;
    assert s[3..] == rest && s[0] == a && s[1] == b && s[2] == c;
  }

  lemma FirstFour(v: seq<Sextet>)
    requires |v| >= 4
    ensures v[..4] == [v[0], v[1], v[2], v[3]]
  {
  }

  lemma GroupOfFour(v: seq<Sextet>)
    requires |v| >= 4
    ensures Sextets(BytesOf(v)) == v[..4] + Sextets(BytesOf(v[4..]))
  {
    hide FirstByte, SecondByte, ThirdByte, FirstSextet, SecondSextet, ThirdSextet, FourthSextet, Sextets;
    var rest := BytesOf(v[4..]);
    var a, b, c := FirstByte(v[0], v[1]), SecondByte(v[1], v[2]), ThirdByte(v[2], v[3]);
    assert BytesOf(v) == [a, b, c] + rest;
    hide BytesOf;
    SextetsPrepend(a, b, c, rest);
    SextetsBack(v[0], v[1], v[2], v[3]);
    FirstFour(v);
  }

  lemma FourAndRest(v: seq<Sextet>, rest: seq<Sextet>)
    requires |v| >= 4
    ensures v[..4] + rest == v <==> rest == v[4..]
  {
    assert (v[..4] + rest)[4..] == rest;
    assert v == v[..4] + v[4..];
  }

  lemma ShortSextets(v: seq<Sextet>)
    requires |v| < 4 && |v| != 1
    ensures Sextets(BytesOf(v)) == v <==> NoLooseBits(v)
  {
    hide FirstByte, SecondByte, ThirdByte, FirstSextet, SecondSextet, ThirdSextet, FourthSextet;
    if |v| == 3 {
      SextetsBack(v[0], v[1], v[2], v[2]);
      assert Sextets(BytesOf(v))[2] == v[2] <==> v[2].c == 0;
    } else if |v| == 2 {
      SextetsBack(v[0], v[1], v[1], v[1]);
      assert Sextets(BytesOf(v))[1] == v[1] <==> v[1].b == 0 && v[1].c == 0;
    }
  }

  /** Sextets come back from their bytes exactly when they have no loose bits. */
  lemma {:induction false} SextetsOfBytes(v: seq<Sextet>)
    requires |v| % 4 != 1
    ensures Sextets(BytesOf(v)) == v <==> NoLooseBits(v)
    decreases |v|
  {
    hide Sextets, BytesOf, NoLooseBits;
    if |v| < 4 {
      ShortSextets(v);
    } else {
      GroupOfFour(v);
      SextetsOfBytes(v[4..]);
      LastOfTail(v);
      FourAndRest(v, Sextets(BytesOf(v[4..])));
    }
  }

  lemma LastOfTail(v: seq<Sextet>)
    requires |v| >= 4
    ensures NoLooseBits(v[4..]) <==> NoLooseBits(v)
  {
    assert |v[4..]| % 4 == |v| % 4;
    if |v| > 4 {
      assert v[4..][|v| - 5] == v[|v| - 1];
    }
  }

  // ---------------------------------------------------------------------------------------
  // Characters
  // ---------------------------------------------------------------------------------------

  /** The characters both alphabets share, and the two they differ in. */
  function CharAt(i: nat, plus: char, slash: char): char
    requires i < 64
  {
    if i < 26 then ('A' as int + i) as char
    else if i < 52 then ('a' as int + (i - 26)) as char
    else if i < 62 then ('0' as int + (i - 52)) as char
    else if i == 62 then plus
    else slash
  }

  lemma IndexBounded(v: Sextet)
    ensures Index(v) < 64
  {
  }

  function CharOf(v: Sextet, plus: char, slash: char): char {
    IndexBounded(v);
    CharAt(Index(v), plus, slash)
  }

  predicate IsCharOf(c: char, plus: char, slash: char) {
    'A' <= c <= 'Z' || 'a' <= c <= 'z' || '0' <= c <= '9' || c == plus || c == slash
  }

  function IndexOf(c: char, plus: char, slash: char): (i: nat)
    requires IsCharOf(c, plus, slash)
    ensures i < 64
  {
    if 'A' <= c <= 'Z' then c as int - 'A' as int
    else if 'a' <= c <= 'z' then c as int - 'a' as int + 26
    else if '0' <= c <= '9' then c as int - '0' as int + 52
    else if c == plus then 62
    else 63
  }

  /** The digits of a number below 64 in base four. */
  function SextetOf(i: nat): (v: Sextet)
    requires i < 64
    ensures Index(v) == i
  {
    var a := if i < 16 then 0 else if i < 32 then 1 else if i < 48 then 2 else 3;
    var r := i - 16 * a;
    var b := if r < 4 then 0 else if r < 8 then 1 else if r < 12 then 2 else 3;
    Sextet(a, b, r - 4 * b)
  }

  function ValueOf(c: char, plus: char, slash: char): Sextet
    requires IsCharOf(c, plus, slash)
  {
    SextetOf(IndexOf(c, plus, slash))
  }

  predicate Alphabets(plus: char, slash: char) {
    (plus, slash) == ('+', '/') || (plus, slash) == ('-', '_')
  }

  lemma IndexOfCharAt(i: nat, c: char, plus: char, slash: char)
    requires i < 64 && Alphabets(plus, slash)
    ensures IsCharOf(CharAt(i, plus, slash), plus, slash) && IndexOf(CharAt(i, plus, slash), plus, slash) == i
    ensures IsCharOf(c, plus, slash) ==> CharAt(IndexOf(c, plus, slash), plus, slash) == c
    ensures CharAt(i, plus, slash) != '=' && CharAt(i, plus, slash) != '$'
  {
  }

  const URL_ALPHABET := "ABCDEFGHIJKLMNOPQRSTUVWXYZabcdefghijklmnopqrstuvwxyz0123456789-_"

  function Alphabet(n: nat): string
    requires n <= 64
  {
    if n == 0 then "" else Alphabet(n - 1) + [CharAt(n - 1, '-', '_')]
  }

  lemma {:induction false} AlphabetAt(n: nat, i: nat)
    requires i < n <= 64
    ensures |Alphabet(n)| == n && Alphabet(n)[i] == CharAt(i, '-', '_')
  {
    if n > 1 {
      AlphabetAt(n - 1, if i < n - 1 then i else 0);
    }
    hide CharAt;
  }

  lemma AlphabetToM()
    ensures Alphabet(13) == "ABCDEFGHIJKLM"
  {
  }

  lemma AlphabetToZ()
    ensures Alphabet(26) == "ABCDEFGHIJKLMNOPQRSTUVWXYZ"
  {
    AlphabetToM();
  }

  lemma AlphabetToSmallM()
    ensures Alphabet(39) == "ABCDEFGHIJKLMNOPQRSTUVWXYZabcdefghijklm"
  {
    AlphabetToZ();
  }

  lemma AlphabetToSmallZ()
    ensures Alphabet(52) == "ABCDEFGHIJKLMNOPQRSTUVWXYZabcdefghijklmnopqrstuvwxyz"
  {
    AlphabetToSmallM();
  }

  /** The characters are those of the table in RFC 4648 section 5, in its order. */
  lemma AlphabetIsTable(v: Sextet)
    ensures |URL_ALPHABET| == 64 && Index(v) < 64 && CharOf(v, '-', '_') == URL_ALPHABET[Index(v)]
  {
    AlphabetToSmallZ();
    assert Alphabet(64) == URL_ALPHABET;
    IndexBounded(v);
    AlphabetAt(64, Index(v));
    hide CharAt, Index;
  }

  function Spelled(v: seq<Sextet>, plus: char, slash: char): string {
    seq(|v|, i requires 0 <= i < |v| => CharOf(v[i], plus, slash))
  }

  ghost predicate Spells(text: string, plus: char, slash: char) {
    forall i :: 0 <= i < |text| ==> IsCharOf(text[i], plus, slash)
  }

  function Values(text: string, plus: char, slash: char): seq<Sextet>
    requires Spells(text, plus, slash)
  {
    seq(|text|, i requires 0 <= i < |text| => ValueOf(text[i], plus, slash))
  }

  lemma CharsAndValues(v: Sextet, c: char, plus: char, slash: char)
    requires Alphabets(plus, slash)
    ensures IsCharOf(CharOf(v, plus, slash), plus, slash) && ValueOf(CharOf(v, plus, slash), plus, slash) == v
    ensures IsCharOf(c, plus, slash) ==> CharOf(ValueOf(c, plus, slash), plus, slash) == c
    ensures CharOf(v, plus, slash) != '=' && CharOf(v, plus, slash) != '$'
  {
    hide Index, CharAt, IndexOf, IsCharOf, SextetOf;
    IndexBounded(v);
    IndexOfCharAt(Index(v), c, plus, slash);
    IndexUnique(SextetOf(Index(v)), v);
  }

  lemma ValuesOfSpelled(v: seq<Sextet>, plus: char, slash: char)
    requires Alphabets(plus, slash)
    ensures Spells(Spelled(v, plus, slash), plus, slash) && Values(Spelled(v, plus, slash), plus, slash) == v
  {
    hide CharOf, ValueOf, IsCharOf;
    forall i | 0 <= i < |v|
      ensures IsCharOf(Spelled(v, plus, slash)[i], plus, slash)
              && ValueOf(Spelled(v, plus, slash)[i], plus, slash) == v[i]
    {
      CharsAndValues(v[i], plus, plus, slash);
    }
  }

  lemma SpelledOfValues(text: string, plus: char, slash: char)
    requires Alphabets(plus, slash) && Spells(text, plus, slash)
    ensures Spelled(Values(text, plus, slash), plus, slash) == text
  {
    hide CharOf, ValueOf, IsCharOf;
    forall i | 0 <= i < |text| ensures CharOf(ValueOf(text[i], plus, slash), plus, slash) == text[i] {
      CharsAndValues(Values(text, plus, slash)[i], text[i], plus, slash);
    }
  }

  function Replace(s: string, from: char, to: char): string {
    seq(|s|, i requires 0 <= i < |s| => if s[i] == from then to else s[i])
  }

  function Equals(n: nat): string {
    seq(n, _ => '=')
  }

  function StripEquals(s: string): string {
    if s != "" && s[|s| - 1] == '=' then StripEquals(s[..|s| - 1]) else s
  }

  lemma {:induction false} StripsPadding(s: string, n: nat)
    requires forall i :: 0 <= i < |s| ==> s[i] != '='
    ensures StripEquals(s + Equals(n)) == s
  {
    var padded := s + Equals(n);
    if n > 0 {
      assert padded[..|padded| - 1] == s + Equals(n - 1);
      StripsPadding(s, n - 1);
    } else {
      assert padded == s;
    }
  }

  // ---------------------------------------------------------------------------------------
  // Base64url
  // ---------------------------------------------------------------------------------------

  /** RFC 4648 section 5, without padding. */
  function UrlText(s: Bytes): string {
    Spelled(Sextets(s), '-', '_')
  }

  /** Nothing comes from an empty text, from other characters, or from a length that no bytes have. */
  ghost function UrlBytes(text: string): Option<Bytes> {
    if text == "" || !Spells(text, '-', '_') || |text| % 4 == 1 then None
    else Some(BytesOf(Values(text, '-', '_')))
  }

  /** Bytes come back from their text exactly when there are any. */
  lemma BytesComeBack(s: Bytes)
    ensures UrlBytes(UrlText(s)) == Some(s) <==> s != []
    ensures s == [] ==> UrlBytes(UrlText(s)) == None
  {
    BytesOfSextets(s);
    ValuesOfSpelled(Sextets(s), '-', '_');
  }

  /** A text that is read comes back from its bytes exactly when it has no loose bits at its end. */
  lemma TextComesBackIff(text: string)
    requires UrlBytes(text).Some?
    ensures UrlText(UrlBytes(text).value) == text <==> NoLooseBits(Values(text, '-', '_'))
  {
    var v := Values(text, '-', '_');
    SextetsOfBytes(v);
    SpelledOfValues(text, '-', '_');
    ValuesOfSpelled(Sextets(BytesOf(v)), '-', '_');
  }

  /** Loose bits are ignored: the text without them stands for the same bytes. */
  lemma LooseBitsAreIgnored(text: string)
    requires UrlBytes(text).Some?
    ensures UrlBytes(UrlText(UrlBytes(text).value)) == UrlBytes(text)
  {
    BytesComeBack(UrlBytes(text).value);
    assert |BytesOf(Values(text, '-', '_'))| > 0;
    hide UrlText, BytesOf, Values, Spells;
  }

  /** There are such bits after one or two bytes left over: here a text that is not the one of its bytes. */
  lemma SomeTextsHaveLooseBits()
    ensures var text := Spelled([Sextet(0, 0, 0), Sextet(0, 0, 1)], '-', '_');
            UrlBytes(text).Some? && UrlText(UrlBytes(text).value) != text
  {
    var v: seq<Sextet> := [Sextet(0, 0, 0), Sextet(0, 0, 1)];
    ValuesOfSpelled(v, '-', '_');
    assert !NoLooseBits(v);
    var text := Spelled(v, '-', '_');
    TextComesBackIff(text);
    hide UrlText, BytesOf, Spelled, Values;
  }

  // ---------------------------------------------------------------------------------------
  // The library's base64, and the conversions around it
  // ---------------------------------------------------------------------------------------

  /** A binary string, of characters below 256, is the bytes that are its character codes. */
  type Binary = seq<Byte>

  /** The padded encoding of RFC 4648 section 4. */
  function Btoa(binary: Binary): string {
    Spelled(Sextets(binary), '+', '/') + Equals((3 - |binary| % 3) % 3)
  }

  /** Decoding text that has been padded to a multiple of four. */
  function Atob(padded: string): Binary
    requires Spells(StripEquals(padded), '+', '/')
  {
    BytesOf(Values(StripEquals(padded), '+', '/'))
  }

  lemma ReplacedSpelling(v: seq<Sextet>, pad: string)
    requires forall i :: 0 <= i < |pad| ==> pad[i] == '='
    ensures Replace(Replace(Spelled(v, '+', '/') + pad, '+', '-'), '/', '_') == Spelled(v, '-', '_') + pad
    ensures forall i :: 0 <= i < |v| ==> Spelled(v, '-', '_')[i] != '='
  {
    hide CharOf;
    var was, now := Spelled(v, '+', '/') + pad, Spelled(v, '-', '_') + pad;
    forall i | 0 <= i < |v|
      ensures now[i] != '=' && now[i] == if was[i] == '+' then '-' else if was[i] == '/' then '_' else was[i]
    {
      ReplacedChar(v[i]);
      assert now[i] == CharOf(v[i], '-', '_') && was[i] == CharOf(v[i], '+', '/');
    }
    assert forall i :: 0 <= i < |v| ==> now[i] == Spelled(v, '-', '_')[i];
  }

  lemma ReplacedChar(v: Sextet)
    ensures var was, now := CharOf(v, '+', '/'), CharOf(v, '-', '_');
            now != '=' && now == if was == '+' then '-' else if was == '/' then '_' else was
  {
    hide Index;
    IndexBounded(v);
  }

  lemma ReplacedText(text: string)
    requires Spells(text, '-', '_')
    ensures var normal := Replace(Replace(text, '-', '+'), '_', '/');
            Spells(normal, '+', '/') && Values(normal, '+', '/') == Values(text, '-', '_')
  {
    hide SextetOf;
  }

  lemma NoEquals(text: string)
    requires Spells(text, '+', '/')
    ensures forall i :: 0 <= i < |text| ==> text[i] != '='
  {
  }

  method BytesToBase64Url(bytes: Bytes) returns (text: string)
    ensures text == UrlText(bytes)
  {
    hide Sextets, CharOf;
    var binary: Binary := [];
    for i := 0 to |bytes|
      invariant binary == bytes[..i]
    {
      binary := binary + [bytes[i]];
    }
    assert binary == bytes;
    text := Btoa(binary);
    var padding := (3 - |binary| % 3) % 3;
    ReplacedSpelling(Sextets(bytes), Equals(padding));
    text := Replace(text, '+', '-');
    text := Replace(text, '/', '_');
    StripsPadding(Spelled(Sextets(bytes), '-', '_'), padding);
    text := StripEquals(text);
  }

  method Base64UrlToBytes(text: string) returns (bytes: Option<Bytes>)
    ensures bytes == UrlBytes(text)
  {
    hide ValueOf, BytesOf, IsCharOf;
    if text == "" || |text| % 4 == 1 {
      return None;
    }
    for i := 0 to |text|
      invariant forall j :: 0 <= j < i ==> IsCharOf(text[j], '-', '_')
    {
      if !IsCharOf(text[i], '-', '_') {
        return None;
      }
    }
    assert Spells(text, '-', '_');
    var normalized := Replace(text, '-', '+');
    normalized := Replace(normalized, '_', '/');
    ReplacedText(text);
    var paddingLength := (4 - |normalized| % 4) % 4;
    var padded := normalized + Equals(paddingLength);
    NoEquals(normalized);
    StripsPadding(normalized, paddingLength);
    var binary := Atob(padded);
    var copied := CopyOf(binary);
    return Some(copied);
  }

  method CopyOf(binary: Binary) returns (result: Bytes)
    ensures result == binary
  {
    result := [];
    for i := 0 to |binary|
      invariant result == binary[..i]
    {
      result := result + [binary[i]];
    }
  }

  // ---------------------------------------------------------------------------------------
  // The record
  // ---------------------------------------------------------------------------------------

  datatype Parsed = Parsed(iterations: int, salt: Bytes, key: Bytes)

  function Join(parts: seq<string>, separator: char): string
    requires parts != []
  {
    if |parts| == 1 then parts[0] else parts[0] + [separator] + Join(parts[1..], separator)
  }

  function Split(s: string, separator: char): (parts: seq<string>)
    ensures parts != []
  {
    if s == "" then [""]
    else if s[0] == separator then [""] + Split(s[1..], separator)
    else
      var rest := Split(s[1..], separator);
      [[s[0]] + rest[0]] + rest[1..]
  }

  lemma {:induction false} SplitOne(part: string, separator: char, rest: string)
    requires separator !in part
    ensures Split(part + [separator] + rest, separator) == [part] + Split(rest, separator)
    ensures Split(part, separator) == [part]
  {
    if part == "" {
      assert ("" + [separator] + rest)[1..] == rest;
    } else {
      var tail := part[1..];
      SplitOne(tail, separator, rest);
      assert (part + [separator] + rest)[1..] == tail + [separator] + rest;
      assert [part[0]] + tail == part;
    }
  }

  lemma {:induction false} SplitJoined(parts: seq<string>, separator: char)
    requires parts != [] && forall i :: 0 <= i < |parts| ==> separator !in parts[i]
    ensures Split(Join(parts, separator), separator) == parts
  {
    if |parts| == 1 {
      SplitOne(parts[0], separator, "");
    } else {
      SplitOne(parts[0], separator, Join(parts[1..], separator));
      SplitJoined(parts[1..], separator);
      assert [parts[0]] + parts[1..] == parts;
    }
  }

  lemma {:induction false} JoinedSplit(s: string, separator: char)
    ensures Join(Split(s, separator), separator) == s
    ensures forall i :: 0 <= i < |Split(s, separator)| ==> separator !in Split(s, separator)[i]
  {
    if s != "" {
      JoinedSplit(s[1..], separator);
      var rest := Split(s[1..], separator);
      if s[0] == separator {
        assert Split(s, separator)[1..] == rest;
      } else {
        var parts := Split(s, separator);
        assert parts[0] == [s[0]] + rest[0] && parts[1..] == rest[1..];
        assert Join(parts, separator) == [s[0]] + Join(rest, separator);
      }
    }
  }

  function HashText(iterations: nat, salt: Bytes, key: Bytes): string {
    Join([PASSWORD_HASH_VERSION, Decimal.Text(iterations), UrlText(salt), UrlText(key)], '$')
  }

  /**
   * `toInteger` is what the language makes of a numeric text, when that is an integer, and `toBytes` the bytes
   * a text stands for.
   */
  ghost function ParsedHash(hash: string, toInteger: string -> Option<int>, toBytes: string -> Option<Bytes>)
    : Option<Parsed>
  {
    var parts := Split(hash, '$');
    if |parts| != 4 || parts[0] != PASSWORD_HASH_VERSION then None
    else
      var iterations := toInteger(parts[1]);
      if iterations.None? || iterations.value < 10000 || iterations.value > 1000000 then None
      else
        var salt, key := toBytes(parts[2]), toBytes(parts[3]);
        if salt.None? || key.None? || |salt.value| != SALT_BYTES || |key.value| != KEY_BYTES then None
        else Some(Parsed(iterations.value, salt.value, key.value))
  }

  ghost predicate ReadsDecimals(toInteger: string -> Option<int>) {
    forall n: nat :: toInteger(Decimal.Text(n)) == Some(n)
  }

  lemma NoDollar(s: Bytes)
    ensures '$' !in UrlText(s)
  {
    ValuesOfSpelled(Sextets(s), '-', '_');
    hide ValueOf, Sextets;
  }

  lemma NoDollarInDecimal(n: nat)
    ensures '$' !in Decimal.Text(n)
  {
    assert Decimal.AllDigits(Decimal.Text(n));
  }

  /** A rendered hash is parsed back exactly when its iterations and lengths are the accepted ones. */
  lemma HashComesBackIff(iterations: nat, salt: Bytes, key: Bytes, toInteger: string -> Option<int>)
    requires ReadsDecimals(toInteger)
    ensures ParsedHash(HashText(iterations, salt, key), toInteger, UrlBytes) == Some(Parsed(iterations, salt, key)) <==>
            10000 <= iterations <= 1000000 && |salt| == 16 && |key| == 32
  {
    var parts := [PASSWORD_HASH_VERSION, Decimal.Text(iterations), UrlText(salt), UrlText(key)];
    NoDollar(salt);
    NoDollar(key);
    NoDollarInDecimal(iterations);
    SplitJoined(parts, '$');
    BytesComeBack(salt);
    BytesComeBack(key);
  }

  /** The form of a stored hash, part by part. */
  ghost predicate IsHash(hash: string, number: string, saltText: string, keyText: string) {
    && '$' !in number && '$' !in saltText && '$' !in keyText
    && hash == "f8pbkdf2-sha256-v1$" + number + "$" + saltText + "$" + keyText
  }

  lemma FourJoined(a: string, b: string, c: string, d: string)
    ensures Join([a, b, c, d], '$') == a + "$" + b + "$" + c + "$" + d
  {
    assert [a, b, c, d][1..] == [b, c, d] && [b, c, d][1..] == [c, d] && [c, d][1..] == [d];
    assert Join([c, d], '$') == c + "$" + d;
    assert Join([b, c, d], '$') == b + "$" + (c + "$" + d);
  }

  lemma FourParts(hash: string, number: string, saltText: string, keyText: string)
    ensures IsHash(hash, number, saltText, keyText) <==>
            Split(hash, '$') == [PASSWORD_HASH_VERSION, number, saltText, keyText]
  {
    var parts := [PASSWORD_HASH_VERSION, number, saltText, keyText];
    FourJoined(PASSWORD_HASH_VERSION, number, saltText, keyText);
    assert PASSWORD_HASH_VERSION + "$" == "f8pbkdf2-sha256-v1$";
    if Split(hash, '$') == parts {
      JoinedSplit(hash, '$');
      assert parts[1] == number && parts[2] == saltText && parts[3] == keyText;
    }
    if IsHash(hash, number, saltText, keyText) {
      SplitJoined(parts, '$');
    }
  }

  /** A text is accepted exactly when it is of that form with parts in their ranges. */
  lemma ParsedIff(hash: string, toInteger: string -> Option<int>, toBytes: string -> Option<Bytes>,
                  iterations: int, salt: Bytes, key: Bytes)
    ensures ParsedHash(hash, toInteger, toBytes) == Some(Parsed(iterations, salt, key)) <==>
            && 10000 <= iterations <= 1000000 && |salt| == 16 && |key| == 32
            && exists number, saltText, keyText ::
                 && IsHash(hash, number, saltText, keyText) && toInteger(number) == Some(iterations)
                 && toBytes(saltText) == Some(salt) && toBytes(keyText) == Some(key)
  {
    hide IsHash, Split;
    forall number, saltText, keyText
      ensures IsHash(hash, number, saltText, keyText) <==>
              Split(hash, '$') == [PASSWORD_HASH_VERSION, number, saltText, keyText]
    {
      FourParts(hash, number, saltText, keyText);
    }
    var parts := Split(hash, '$');
    if |parts| == 4 && parts[0] == PASSWORD_HASH_VERSION {
      assert parts == [PASSWORD_HASH_VERSION, parts[1], parts[2], parts[3]];
    }
  }

  method ParsePasswordHash(hash: string, toInteger: string -> Option<int>) returns (parsed: Option<Parsed>)
    ensures parsed == ParsedHash(hash, toInteger, UrlBytes)
  {
    var parts := Split(hash, '$');
    if |parts| != 4 {
      return None;
    }
    var version, iterationsText, saltText, keyText := parts[0], parts[1], parts[2], parts[3];
    if version != PASSWORD_HASH_VERSION {
      return None;
    }
    var iterations := toInteger(iterationsText);
    if iterations.None? || iterations.value < 10000 || iterations.value > 1000000 {
      return None;
    }
    var salt := Base64UrlToBytes(saltText);
    var key := Base64UrlToBytes(keyText);
    if salt.None? || key.None? {
      return None;
    }
    if |salt.value| != SALT_BYTES || |key.value| != KEY_BYTES {
      return None;
    }
    return Some(Parsed(iterations.value, salt.value, key.value));
  }

  // ---------------------------------------------------------------------------------------
  // Verification
  // ---------------------------------------------------------------------------------------

  /** The bitwise operators on numbers that are not negative. */
  function Xor(a: nat, b: nat): nat {
    if a == 0 && b == 0 then 0 else 2 * Xor(a / 2, b / 2) + if a % 2 == b % 2 then 0 else 1
  }

  function Or(a: nat, b: nat): nat {
    if a == 0 && b == 0 then 0 else 2 * Or(a / 2, b / 2) + if a % 2 == 0 && b % 2 == 0 then 0 else 1
  }

  lemma {:induction false} XorZero(a: nat, b: nat)
    ensures Xor(a, b) == 0 <==> a == b
  {
    if a != 0 || b != 0 {
      XorZero(a / 2, b / 2);
    }
  }

  lemma {:induction false} OrZero(a: nat, b: nat)
    ensures Or(a, b) == 0 <==> a == 0 && b == 0
  {
    if a != 0 || b != 0 {
      OrZero(a / 2, b / 2);
    }
  }

  lemma SameSoFar(left: Bytes, right: Bytes, n: nat)
    requires n < |left| == |right|
    ensures left[..n + 1] == right[..n + 1] <==> left[..n] == right[..n] && left[n] == right[n]
  {
    assert left[..n + 1] == left[..n] + [left[n]] && right[..n + 1] == right[..n] + [right[n]];
  }

  lemma DifferenceGathered(diff: nat, x: Byte, y: Byte)
    ensures Or(diff, Xor(Code(x), Code(y))) == 0 <==> diff == 0 && x == y
  {
    hide Xor, Or, Code;
    XorZero(Code(x), Code(y));
    OrZero(diff, Xor(Code(x), Code(y)));
    if Code(x) == Code(y) {
      CodeUnique(x, y);
    }
  }

  /** Looks at every byte, whatever it finds. */
  method TimingSafeEqual(left: Bytes, right: Bytes) returns (equal: bool)
    ensures equal <==> left == right
  {
    hide Code, Xor, Or;
    if |left| != |right| {
      return false;
    }
    var diff: nat := 0;
    for index := 0 to |left|
      invariant diff == 0 <==> left[..index] == right[..index]
    {
      DifferenceGathered(diff, left[index], right[index]);
      SameSoFar(left, right, index);
      diff := Or(diff, Xor(Code(left[index]), Code(right[index])));
    }
    assert left[..|left|] == left && right[..|left|] == right;
    return diff == 0;
  }

  type Derivation = (string, Bytes, int) -> Bytes

  method HashAuthPassword(password: string, salt: Bytes, derive: Derivation) returns (hash: string)
    ensures hash == HashText(50000, salt, derive(password, salt, 50000))
  {
    var key := derive(password, salt, PBKDF2_ITERATIONS);
    var saltText := BytesToBase64Url(salt);
    var keyText := BytesToBase64Url(key);
    return Join([PASSWORD_HASH_VERSION, Decimal.Text(PBKDF2_ITERATIONS), saltText, keyText], '$');
  }

  ghost function Verified(hash: string, password: string, derive: Derivation, toInteger: string -> Option<int>): bool {
    var parsed := ParsedHash(hash, toInteger, UrlBytes);
    parsed.Some? && derive(password, parsed.value.salt, parsed.value.iterations) == parsed.value.key
  }

  method VerifyAuthPassword(hash: string, password: string, derive: Derivation, toInteger: string -> Option<int>)
    returns (ok: bool)
    ensures ok == Verified(hash, password, derive, toInteger)
  {
    var parsed := ParsePasswordHash(hash, toInteger);
    if parsed.None? {
      return false;
    }
    var actualKey := derive(password, parsed.value.salt, parsed.value.iterations);
    ok := TimingSafeEqual(actualKey, parsed.value.key);
  }

  /** A password verifies against the stored hash of another exactly when both derive the same key. */
  lemma VerifiesIffSameKey(stored: string, tried: string, salt: Bytes, derive: Derivation,
                           toInteger: string -> Option<int>)
    requires ReadsDecimals(toInteger) && |salt| == SALT_BYTES
    requires |derive(stored, salt, PBKDF2_ITERATIONS)| == KEY_BYTES
    ensures Verified(HashText(PBKDF2_ITERATIONS, salt, derive(stored, salt, PBKDF2_ITERATIONS)),
                     tried, derive, toInteger)
            <==> derive(tried, salt, PBKDF2_ITERATIONS) == derive(stored, salt, PBKDF2_ITERATIONS)
  {
    HashComesBackIff(PBKDF2_ITERATIONS, salt, derive(stored, salt, PBKDF2_ITERATIONS), toInteger);
  }
}
