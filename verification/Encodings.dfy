/** The canonical Base64 and PEM readers of scripts/validate_kubeconfig_snapshot.py, against
    the encoding of sections 3.5 and 4 of RFC 4648. */
module Encodings {
  import opened Text

  type Byte = n: int | 0 <= n < 256

  type Sextet = n: int | 0 <= n < 64

  type Bytes = seq<Byte>

  const MAX_EMBEDDED_BYTES := 131072

  // --------------------------------------------------------------------------
  // Base64

  /** The alphabet. */
  function Char(v: Sextet): char {
    if v < 26 then 'A' + v as char
    else if v < 52 then 'a' + (v - 26) as char
    else if v < 62 then '0' + (v - 52) as char
    else if v == 62 then '+'
    else '/'
  }

  function Value(c: char): Option<Sextet> {
    if 'A' <= c <= 'Z' then Some((c - 'A') as int)
    else if 'a' <= c <= 'z' then Some((c - 'a') as int + 26)
    else if '0' <= c <= '9' then Some((c - '0') as int + 52)
    else if c == '+' then Some(62)
    else if c == '/' then Some(63)
    else None
  }

  lemma ValueOfChar(v: Sextet)
    ensures Value(Char(v)) == Some(v) && Char(v) != '=' && Char(v) != '\n' && Char(v) != '\r'
  {
  }

  lemma CharOfValue(c: char)
    ensures Value(c).Some? ==> Char(Value(c).value) == c && c != '='
  {
  }

  function OneEncoded(x: Byte): (g: string)
    ensures |g| == 4
  {
    [Char(x / 4), Char(x % 4 * 16), '=', '=']
  }

  function TwoEncoded(x: Byte, y: Byte): (g: string)
    ensures |g| == 4
  {
    [Char(x / 4), Char(x % 4 * 16 + y / 16), Char(y % 16 * 4), '=']
  }

  function ThreeEncoded(x: Byte, y: Byte, z: Byte): (g: string)
    ensures |g| == 4
  {
    [Char(x / 4), Char(x % 4 * 16 + y / 16), Char(y % 16 * 4 + z / 64), Char(z % 64)]
  }

  /** `base64.b64encode`. */
  function Encode(d: Bytes): string {
    if d == [] then ""
    else if |d| == 1 then OneEncoded(d[0])
    else if |d| == 2 then TwoEncoded(d[0], d[1])
    else ThreeEncoded(d[0], d[1], d[2]) + Encode(d[3..])
  }

  /** The bytes of a last group with one byte, with two, and of a full group; the bits the
      padding leaves over are dropped. */
  function OneByte(a: Option<Sextet>, b: Option<Sextet>): Option<Bytes> {
    if a.Some? && b.Some? then Some([a.value * 4 + b.value / 16]) else None
  }

  function TwoBytes(a: Option<Sextet>, b: Option<Sextet>, c: Option<Sextet>): Option<Bytes> {
    if a.Some? && b.Some? && c.Some? then
      Some([a.value * 4 + b.value / 16, b.value % 16 * 16 + c.value / 4])
    else None
  }

  function ThreeBytes(a: Option<Sextet>, b: Option<Sextet>, c: Option<Sextet>, d: Option<Sextet>): Option<Bytes> {
    if a.Some? && b.Some? && c.Some? && d.Some? then
      Some([a.value * 4 + b.value / 16, b.value % 16 * 16 + c.value / 4, c.value % 4 * 64 + d.value])
    else None
  }

  function LastDecoded(a: char, b: char, c: char): Option<Bytes> {
    if c == '=' then OneByte(Value(a), Value(b)) else TwoBytes(Value(a), Value(b), Value(c))
  }

  function FullDecoded(a: char, b: char, c: char, d: char): Option<Bytes> {
    ThreeBytes(Value(a), Value(b), Value(c), Value(d))
  }

  predicate AllPads(s: string) {
    forall i :: 0 <= i < |s| ==> s[i] == '='
  }

  /** `base64.b64decode(…, validate=True)`: after a last group that is full, any number of
      padding characters is passed over. */
  function Decode(s: string): Option<Bytes> {
    if s == "" then Some([])
    else if |s| < 4 then None
    else if |s| == 4 && s[3] == '=' then LastDecoded(s[0], s[1], s[2])
    else
      var first := FullDecoded(s[0], s[1], s[2], s[3]);
      var rest := if AllPads(s[4..]) then Some([]) else Decode(s[4..]);
      if first.Some? && rest.Some? then Some(first.value + rest.value) else None
  }

  lemma GroupInverse(x: Byte, y: Byte, z: Byte)
    ensures OneByte(Some(x / 4), Some(x % 4 * 16)) == Some([x])
    ensures TwoBytes(Some(x / 4), Some(x % 4 * 16 + y / 16), Some(y % 16 * 4)) == Some([x, y])
    ensures
      ThreeBytes(Some(x / 4), Some(x % 4 * 16 + y / 16), Some(y % 16 * 4 + z / 64), Some(z % 64)) == Some([x, y, z])
  {
  }

  lemma GroupsDecode(x: Byte, y: Byte, z: Byte)
    ensures var g := OneEncoded(x); g[3] == '=' && LastDecoded(g[0], g[1], g[2]) == Some([x])
    ensures var g := TwoEncoded(x, y); g[3] == '=' && LastDecoded(g[0], g[1], g[2]) == Some([x, y])
    ensures var g := ThreeEncoded(x, y, z); g[3] != '=' && FullDecoded(g[0], g[1], g[2], g[3]) == Some([x, y, z])
  {
    GroupInverse(x, y, z);
    ValueOfChar(x / 4);
    ValueOfChar(x % 4 * 16);
    ValueOfChar(x % 4 * 16 + y / 16);
    ValueOfChar(y % 16 * 4);
    ValueOfChar(y % 16 * 4 + z / 64);
    ValueOfChar(z % 64);
  }

  lemma DecodeFull(g: string, first: Bytes, s: string, rest: Bytes)
    requires |g| == 4 && g[3] != '=' && FullDecoded(g[0], g[1], g[2], g[3]) == Some(first)
    requires Decode(s) == Some(rest) && (s == "" || !AllPads(s))
    ensures Decode(g + s) == Some(first + rest)
  {
    assert (g + s)[4..] == s;
  }

  lemma EncodedStarts(d: Bytes)
    requires d != []
    ensures Encode(d) != "" && Encode(d)[0] != '=' && !AllPads(Encode(d))
  {
    ValueOfChar(d[0] / 4);
    assert Encode(d)[0] == Char(d[0] / 4);
  }

  lemma DecodeOne(x: Byte)
    ensures Decode(Encode([x])) == Some([x])
  {
    GroupsDecode(x, 0, 0);
    var g := OneEncoded(x);
    assert Encode([x]) == g;
  }

  lemma DecodeTwo(x: Byte, y: Byte)
    ensures Decode(Encode([x, y])) == Some([x, y])
  {
    GroupsDecode(x, y, 0);
    var g := TwoEncoded(x, y);
    assert Encode([x, y]) == g;
  }

  lemma DecodeStep(d: Bytes, x: Byte, y: Byte, z: Byte, rest: Bytes)
    requires d == [x, y, z] + rest && Decode(Encode(rest)) == Some(rest)
    ensures Decode(Encode(d)) == Some(d)
  {
    GroupsDecode(x, y, z);
    if rest != [] { EncodedStarts(rest); }
    DecodeFull(ThreeEncoded(x, y, z), [x, y, z], Encode(rest), rest);
    assert d[3..] == rest;
  }

  // The encoding as section 4 of RFC 4648 draws it: three bytes are one number of 24 bits,
  // written with four digits of six bits

  function ByteAt(d: Bytes, k: nat): Byte {
    if k < |d| then d[k] else 0
  }

  /** The number of the `k`-th group of bytes, which zeros follow. */
  function GroupNumber(d: Bytes, k: nat): int {
    ByteAt(d, 3 * k) * 65536 + ByteAt(d, 3 * k + 1) * 256 + ByteAt(d, 3 * k + 2)
  }

  /** Digit `j` of a number of four digits to the base 64. */
  function DigitOf(n: int, j: nat): int {
    if j == 0 then n / 262144 else if j == 1 then n / 4096 % 64 else if j == 2 then n / 64 % 64 else n % 64
  }

  /** The letter of a digit, by its place in the alphabet. */
  predicate Letter(c: char, v: int) {
    || (0 <= v < 26 && c as int == 'A' as int + v)
    || (26 <= v < 52 && c as int == 'a' as int + v - 26)
    || (52 <= v < 62 && c as int == '0' as int + v - 52)
    || (v == 62 && c == '+') || (v == 63 && c == '/')
  }

  lemma CharIsLetter(v: Sextet)
    ensures Letter(Char(v), v)
  {
  }

  lemma FirstDigit(x: Byte, y: Byte, z: Byte)
    ensures (x * 65536 + y * 256 + z) / 262144 == x / 4
  {
  }

  lemma SecondDigit(x: Byte, y: Byte, z: Byte)
    ensures (x * 65536 + y * 256 + z) / 4096 % 64 == x % 4 * 16 + y / 16
  {
    assert (x * 65536 + y * 256 + z) / 4096 == x * 16 + y / 16;
    assert x * 16 + y / 16 == x / 4 * 64 + (x % 4 * 16 + y / 16);
  }

  lemma ThirdDigit(x: Byte, y: Byte, z: Byte)
    ensures (x * 65536 + y * 256 + z) / 64 % 64 == y % 16 * 4 + z / 64
  {
    var q, r := y / 16, y % 16;
    assert y == 16 * q + r;
    assert (x * 65536 + y * 256 + z) / 64 == x * 1024 + y * 4 + z / 64;
    assert x * 1024 + y * 4 + z / 64 == (x * 16 + q) * 64 + (r * 4 + z / 64);
  }

  lemma LastDigit(x: Byte, y: Byte, z: Byte)
    ensures (x * 65536 + y * 256 + z) % 64 == z % 64
  {
    assert x * 65536 + y * 256 + z == (x * 1024 + y * 4) * 64 + z;
  }

  /** What a letter of an encoding is: a digit of its group, or padding past the last byte. */
  predicate Encodes(d: Bytes, i: nat, c: char) {
    if 6 * i < 8 * |d| then Letter(c, DigitOf(GroupNumber(d, i / 4), i % 4)) else c == '='
  }

  lemma EncodedHead(d: Bytes, x: Byte, y: Byte, z: Byte)
    requires d != [] && x == ByteAt(d, 0) && y == ByteAt(d, 1) && z == ByteAt(d, 2)
    ensures var s := Encode(d);
            && |s| >= 4 && s[0] == Char(x / 4) && s[1] == Char(x % 4 * 16 + y / 16)
            && s[2] == (if |d| > 1 then Char(y % 16 * 4 + z / 64) else '=')
            && s[3] == (if |d| > 2 then Char(z % 64) else '=')
  {
  }

  lemma LetterOf(d: Bytes, i: nat, v: Sextet)
    requires i < 4 && v == DigitOf(GroupNumber(d, 0), i) && 6 * i < 8 * |d|
    ensures Encodes(d, i, Char(v))
  {
    CharIsLetter(v);
    assert i / 4 == 0 && i % 4 == i;
  }

  lemma FirstGroup(d: Bytes, i: nat)
    requires d != [] && i < 4
    ensures i < |Encode(d)| && Encodes(d, i, Encode(d)[i])
  {
    var x, y, z := ByteAt(d, 0), ByteAt(d, 1), ByteAt(d, 2);
    EncodedHead(d, x, y, z);
    if i == 0 {
      FirstDigit(x, y, z);
      LetterOf(d, 0, x / 4);
    } else if i == 1 {
      SecondDigit(x, y, z);
      LetterOf(d, 1, x % 4 * 16 + y / 16);
    } else if i == 2 {
      ThirdDigit(x, y, z);
      if |d| > 1 { LetterOf(d, 2, y % 16 * 4 + z / 64); }
    } else {
      LastDigit(x, y, z);
      if |d| > 2 { LetterOf(d, 3, z % 64); }
    }
  }

  lemma LaterGroup(d: Bytes, i: nat, c: char)
    requires |d| > 3 && i >= 4 && Encodes(d[3..], i - 4, c)
    ensures Encodes(d, i, c)
  {
    assert i / 4 == (i - 4) / 4 + 1 && i % 4 == (i - 4) % 4;
    assert GroupNumber(d, i / 4) == GroupNumber(d[3..], (i - 4) / 4);
  }

  /** The encoding, letter by letter. */
  lemma {:induction false} EncodeLetters(d: Bytes, i: nat)
    requires i < |Encode(d)|
    ensures Encodes(d, i, Encode(d)[i])
  {
    if i < 4 {
      FirstGroup(d, i);
    } else {
      EncodeLetters(d[3..], i - 4);
      LaterGroup(d, i, Encode(d)[i]);
    }
  }

  /** Decoding inverts encoding. */
  lemma {:induction false} DecodeEncode(d: Bytes)
    ensures Decode(Encode(d)) == Some(d)
  {
    if |d| == 1 {
      assert d == [d[0]];
      DecodeOne(d[0]);
    } else if |d| == 2 {
      assert d == [d[0], d[1]];
      DecodeTwo(d[0], d[1]);
    } else if |d| > 2 {
      DecodeEncode(d[3..]);
      DecodeStep(d, d[0], d[1], d[2], d[3..]);
    }
  }

  function Bits(c: char): int {
    if Value(c).Some? then Value(c).value else 0
  }

  /** The bits a padded last group leaves over are zero. */
  predicate PadBitsZero(s: string) {
    var n := |s|;
    && (n >= 4 && s[n - 1] == '=' && s[n - 2] == '=' ==> Bits(s[n - 3]) % 16 == 0)
    && (n >= 4 && s[n - 1] == '=' && s[n - 2] != '=' ==> Bits(s[n - 2]) % 4 == 0)
  }

  /** The length of the text before its first padding character. */
  function DataLength(s: string): (n: nat)
    ensures n <= |s| && (forall i :: 0 <= i < n ==> s[i] != '=') && (n < |s| ==> s[n] == '=')
  {
    if s == "" || s[0] == '=' then 0 else 1 + DataLength(s[1..])
  }

  /** Padding where the last group was already full. */
  predicate ExcessPadding(s: string) {
    DataLength(s) < |s| && DataLength(s) % 4 == 0
  }

  /** Three bytes from four sextets split back into the same sextets. */
  lemma Regrouped(t: int, u: int, v: int, w: int)
    requires 0 <= t < 64 && 0 <= u < 64 && 0 <= v < 64 && 0 <= w < 64
    ensures var x, y, z := t * 4 + u / 16, u % 16 * 16 + v / 4, v % 4 * 64 + w;
      && 0 <= x < 256 && 0 <= y < 256 && 0 <= z < 256
      && x / 4 == t && x % 4 * 16 == u / 16 * 16 && x % 4 * 16 + y / 16 == u
      && y % 16 * 4 == v / 4 * 4 && y % 16 * 4 + z / 64 == v && z % 64 == w
  {
  }

  lemma OneBack(t: Sextet, u: Sextet) returns (x: Byte, tail: Sextet)
    ensures OneByte(Some(t), Some(u)) == Some([x]) && OneEncoded(x) == [Char(t), Char(tail), '=', '=']
    ensures tail == u <==> u % 16 == 0
  {
    var a: int, b: int := t, u;
    Regrouped(a, b, 0, 0);
    x, tail := a * 4 + b / 16, b / 16 * 16;
  }

  lemma TwoBack(t: Sextet, u: Sextet, v: Sextet) returns (x: Byte, y: Byte, tail: Sextet)
    ensures TwoBytes(Some(t), Some(u), Some(v)) == Some([x, y])
      && TwoEncoded(x, y) == [Char(t), Char(u), Char(tail), '=']
    ensures tail == v <==> v % 4 == 0
  {
    var a: int, b: int, c: int := t, u, v;
    Regrouped(a, b, c, 0);
    x, y, tail := a * 4 + b / 16, b % 16 * 16 + c / 4, c / 4 * 4;
  }

  lemma OneReencoded(a: char, b: char)
    requires LastDecoded(a, b, '=').Some?
    ensures Encode(LastDecoded(a, b, '=').value) == [a, b, '=', '='] <==> Bits(b) % 16 == 0
  {
    CharOfValue(a);
    CharOfValue(b);
    var x, tail := OneBack(Value(a).value, Value(b).value);
    ValueOfChar(tail);
    assert OneEncoded(x)[1] == Char(tail);
  }

  lemma TwoReencoded(a: char, b: char, c: char)
    requires c != '=' && LastDecoded(a, b, c).Some?
    ensures Encode(LastDecoded(a, b, c).value) == [a, b, c, '='] <==> Bits(c) % 4 == 0
  {
    CharOfValue(a);
    CharOfValue(b);
    CharOfValue(c);
    var x, y, tail := TwoBack(Value(a).value, Value(b).value, Value(c).value);
    ValueOfChar(tail);
    assert TwoEncoded(x, y)[2] == Char(tail);
  }

  lemma SextetsBack(t: Sextet, u: Sextet, v: Sextet, w: Sextet, x: Byte, y: Byte, z: Byte)
    requires ThreeBytes(Some(t), Some(u), Some(v), Some(w)) == Some([x, y, z])
    ensures ThreeEncoded(x, y, z) == [Char(t), Char(u), Char(v), Char(w)]
  {
    assert [x, y, z][0] == x && [x, y, z][1] == y && [x, y, z][2] == z;
    GroupedBack(t, u, v, w, x, y, z);
  }

  lemma GroupedBack(t: int, u: int, v: int, w: int, x: int, y: int, z: int)
    requires 0 <= t < 64 && 0 <= u < 64 && 0 <= v < 64 && 0 <= w < 64
    requires x == t * 4 + u / 16 && y == u % 16 * 16 + v / 4 && z == v % 4 * 64 + w
    ensures x / 4 == t && x % 4 * 16 + y / 16 == u && y % 16 * 4 + z / 64 == v && z % 64 == w
  {
    Regrouped(t, u, v, w);
  }

  lemma FullReencoded(a: char, b: char, c: char, d: char, rest: Bytes)
    requires FullDecoded(a, b, c, d).Some?
    ensures Encode(FullDecoded(a, b, c, d).value + rest) == [a, b, c, d] + Encode(rest)
  {
    CharOfValue(a);
    CharOfValue(b);
    CharOfValue(c);
    CharOfValue(d);
    var three := FullDecoded(a, b, c, d).value;
    SextetsBack(Value(a).value, Value(b).value, Value(c).value, Value(d).value, three[0], three[1], three[2]);
    GroupThenRest(three[0], three[1], three[2], rest);
  }

  lemma GroupThenRest(x: Byte, y: Byte, z: Byte, rest: Bytes)
    ensures Encode([x, y, z] + rest) == ThreeEncoded(x, y, z) + Encode(rest)
  {
    assert ([x, y, z] + rest)[3..] == rest;
  }

  lemma DataLengthIs(s: string, n: nat)
    requires n <= |s| && (forall i :: 0 <= i < n ==> s[i] != '=') && (n < |s| ==> s[n] == '=')
    ensures DataLength(s) == n
  {
  }

  /** A full group in front of a text that decodes. */
  lemma FullGroupFirst(s: string)
    requires |s| >= 4 && Value(s[0]).Some? && Value(s[1]).Some? && Value(s[2]).Some? && Value(s[3]).Some?
    ensures DataLength(s) == 4 + DataLength(s[4..])
    ensures AllPads(s[4..]) && s[4..] != "" ==> ExcessPadding(s)
    ensures ExcessPadding(s[4..]) ==> ExcessPadding(s)
    ensures ExcessPadding(s) && !AllPads(s[4..]) ==> ExcessPadding(s[4..])
  {
    CharOfValue(s[0]);
    CharOfValue(s[1]);
    CharOfValue(s[2]);
    CharOfValue(s[3]);
    var t := s[4..];
    assert forall i :: 4 <= i < |s| ==> s[i] == t[i - 4];
    DataLengthIs(s, 4 + DataLength(t));
  }

  lemma LastGroupFits(s: string)
    requires |s| == 4 && s[3] == '=' && LastDecoded(s[0], s[1], s[2]).Some?
    ensures !ExcessPadding(s)
  {
    CharOfValue(s[0]);
    CharOfValue(s[1]);
    CharOfValue(s[2]);
    DataLengthIs(s, if s[2] == '=' then 2 else 3);
  }

  /** Encoding inverts decoding exactly on the texts without excess padding whose left-over
      bits are zero. */
  lemma {:induction false} EncodeDecode(s: string)
    requires Decode(s).Some?
    ensures Encode(Decode(s).value) == s <==> !ExcessPadding(s) && PadBitsZero(s)
  {
    if s != "" {
      if |s| == 4 && s[3] == '=' {
        assert s == [s[0], s[1], s[2], s[3]];
        LastGroupFits(s);
        if s[2] == '=' { OneReencoded(s[0], s[1]); } else { TwoReencoded(s[0], s[1], s[2]); }
      } else {
        FullGroupFirst(s);
        if AllPads(s[4..]) {
          FullReencoded(s[0], s[1], s[2], s[3], []);
          PaddedFull(s);
        } else {
          EncodeDecode(s[4..]);
          FullReencoded(s[0], s[1], s[2], s[3], Decode(s[4..]).value);
          FullGroupPads(s);
          SameTail(s, Encode(Decode(s[4..]).value));
        }
      }
    }
  }

  lemma PaddedFull(s: string)
    requires |s| >= 4 && s[3] != '=' && FullDecoded(s[0], s[1], s[2], s[3]).Some? && AllPads(s[4..])
    requires var first := FullDecoded(s[0], s[1], s[2], s[3]).value;
      Encode(first + []) == [s[0], s[1], s[2], s[3]] + Encode([])
    ensures Decode(s).Some?
    ensures Encode(Decode(s).value) == s <==> |s| == 4
    ensures |s| == 4 ==> PadBitsZero(s) && !ExcessPadding(s)
  {
    assert [s[0], s[1], s[2], s[3]] + Encode([]) == [s[0], s[1], s[2], s[3]];
    if |s| == 4 {
      assert s == [s[0], s[1], s[2], s[3]];
      CharOfValue(s[0]);
      CharOfValue(s[1]);
      CharOfValue(s[2]);
      DataLengthIs(s, 4);
    }
  }

  lemma SameTail(s: string, t: string)
    requires |s| >= 4
    ensures [s[0], s[1], s[2], s[3]] + t == s <==> t == s[4..]
  {
    var head := [s[0], s[1], s[2], s[3]];
    assert s == head + s[4..];
    assert (head + t)[4..] == t;
  }

  lemma FullGroupPads(s: string)
    requires |s| >= 4 && Value(s[3]).Some? && Decode(s[4..]).Some?
    ensures PadBitsZero(s) <==> PadBitsZero(s[4..])
  {
    CharOfValue(s[3]);
    var t := s[4..];
    if |t| > 0 {
      assert |t| >= 4;
      assert t[|t| - 1] == s[|s| - 1] && t[|t| - 2] == s[|s| - 2] && t[|t| - 3] == s[|s| - 3];
    }
  }

  /** `_canonical_base64`, for a string. */
  function CanonicalBase64(value: string): Option<Bytes> {
    if value == "" then None
    else
      match Decode(value)
      case None => None
      case Some(decoded) =>
        if decoded == [] || |decoded| > MAX_EMBEDDED_BYTES || Encode(decoded) != value then None else Some(decoded)
  }

  /** Acceptance is exact: the accepted texts are the encodings of 1 to 131072 bytes, each
      read as the bytes it encodes. */
  lemma CanonicalBase64Exact(value: string, d: Bytes)
    ensures CanonicalBase64(value) == Some(d) <==> value == Encode(d) && 1 <= |d| <= MAX_EMBEDDED_BYTES
  {
    DecodeEncode(d);
  }

  /** What the comparison with the re-encoded bytes refuses of the decodable texts of an
      acceptable length: exactly those with excess padding or left-over bits. */
  lemma RefusedAsNotCanonical(value: string)
    requires Decode(value).Some? && 1 <= |Decode(value).value| <= MAX_EMBEDDED_BYTES
    ensures CanonicalBase64(value) == None <==> ExcessPadding(value) || !PadBitsZero(value)
  {
    EncodeDecode(value);
  }

  /** Both happen: the decoder reads such texts, and the comparison refuses them. */
  lemma ExcessPaddingRefused() returns (text: string)
    ensures Decode(text) == Some([65, 66, 64]) && ExcessPadding(text) && CanonicalBase64(text) == None
  {
    text := ['Q', 'U', 'J', 'A', '='];
    assert AllPads(text[4..]) && text[4..] != "";
    var three: Bytes := [65, 66, 64];
    assert FullDecoded(text[0], text[1], text[2], text[3]) == Some(three);
    assert three + [] == three;
    FullGroupFirst(text);
    RefusedAsNotCanonical(text);
  }

  lemma LeftOverBitsRefused() returns (text: string)
    ensures Decode(text) == Some([65]) && !PadBitsZero(text) && CanonicalBase64(text) == None
  {
    text := ['Q', 'R', '=', '='];
    RefusedAsNotCanonical(text);
  }

  lemma {:induction false} EncodedLength(d: Bytes)
    ensures |Encode(d)| == (|d| + 2) / 3 * 4
  {
    if |d| > 2 {
      EncodedLength(d[3..]);
      assert (|d| + 2) / 3 == 1 + (|d[3..]| + 2) / 3;
    }
  }

  lemma {:induction false} EncodedPlain(d: Bytes, c: char)
    requires c == '\n' || c == '\r'
    ensures c !in Encode(d)
  {
    forall v: Sextet ensures Char(v) != c { ValueOfChar(v); }
    if |d| > 2 { EncodedPlain(d[3..], c); }
  }

  lemma {:induction false} DecodedLength(s: string)
    ensures Decode(s).Some? ==> |Decode(s).value| <= |s|
  {
    if |s| >= 4 { DecodedLength(s[4..]); }
  }

  // --------------------------------------------------------------------------
  // PEM

  const WIDTH := 64

  /** The lines of a body, `WIDTH` characters each but the last. */
  function Wrap(s: string): (lines: seq<string>)
    ensures s != "" ==> lines != []
  {
    if s == "" then [] else if |s| <= WIDTH then [s] else [s[..WIDTH]] + Wrap(s[WIDTH..])
  }

  /** `"".join(lines)`. */
  function Concat(lines: seq<string>): string {
    if lines == [] then "" else lines[0] + Concat(lines[1..])
  }

  lemma {:induction false} ConcatWrap(s: string)
    ensures Concat(Wrap(s)) == s
  {
    if |s| > WIDTH {
      ConcatWrap(s[WIDTH..]);
      assert Wrap(s)[1..] == Wrap(s[WIDTH..]);
    } else if s != "" {
      var none: seq<string> := [];
      assert [s][1..] == none;
      assert Concat([s]) == s + Concat(none);
    }
  }

  predicate Without(c: char, lines: seq<string>) {
    forall i :: 0 <= i < |lines| ==> c !in lines[i]
  }

  lemma {:induction false} WrapWithout(c: char, s: string)
    requires c !in s
    ensures Without(c, Wrap(s))
  {
    if |s| > WIDTH { WrapWithout(c, s[WIDTH..]); }
  }

  /** Every line but the last has the full width, and the last is not empty. */
  lemma {:induction false} WrapWidth(s: string, i: nat)
    requires i < |Wrap(s)|
    ensures i < |Wrap(s)| - 1 ==> |Wrap(s)[i]| == WIDTH
    ensures 1 <= |Wrap(s)[i]| <= WIDTH
  {
    if |s| > WIDTH && i > 0 { WrapWidth(s[WIDTH..], i - 1); }
  }

  function Begin(name: string): string { "-----BEGIN " + name + "-----" }

  function End(name: string): string { "-----END " + name + "-----" }

  /** The lines of the only accepted rendering of a body. */
  function PemLines(name: string, der: Bytes): seq<string> {
    [Begin(name)] + Wrap(Encode(der)) + [End(name)]
  }

  /** The lines of a rendering, each ended by a newline. */
  function Render(name: string, der: Bytes): string {
    Join(PemLines(name, der) + [""], '\n')
  }

  predicate Ascii(d: Bytes) {
    forall i :: 0 <= i < |d| ==> d[i] < 128
  }

  /** `bytes.decode("ascii")`. */
  function TextOf(d: Bytes): (s: string)
    requires Ascii(d)
    ensures |s| == |d| && forall i :: 0 <= i < |d| ==> s[i] as int == d[i]
  {
    seq(|d|, i requires 0 <= i < |d| => d[i] as char)
  }

  /** The first allowed label whose opening line is the given one. */
  function Select(line: string, labels: seq<string>): Option<string> {
    if labels == [] then None
    else if line == Begin(labels[0]) then Some(labels[0])
    else Select(line, labels[1..])
  }

  function BodyOf(lines: seq<string>): string
    requires |lines| >= 3
  {
    Concat(lines[1..|lines| - 1])
  }

  /** The checks of a decoded text. */
  predicate PemAccepted(text: string, labels: seq<string>, minimum: nat) {
    if '\r' in text || text == "" || text[|text| - 1] != '\n' then false
    else
      var lines := Split(text[..|text| - 1], '\n');
      if |lines| < 3 then false
      else
        var name := Select(lines[0], labels);
        if name.None? || lines[|lines| - 1] != End(name.value) then false
        else
          var der := Decode(BodyOf(lines));
          if der.None? || |der.value| < minimum || |der.value| > MAX_EMBEDDED_BYTES || der.value == []
            || der.value[0] != 0x30
          then false
          else text == Render(name.value, der.value)
  }

  /** `_canonical_pem`. */
  function CanonicalPem(encoded: string, labels: seq<string>, minimum: nat): Option<Bytes> {
    match CanonicalBase64(encoded)
    case None => None
    case Some(pem) => if Ascii(pem) && PemAccepted(TextOf(pem), labels, minimum) then Some(pem) else None
  }

  predicate PlainLabels(labels: seq<string>) {
    Without('\n', labels) && Without('\r', labels)
  }

  lemma {:induction false} SelectExact(line: string, labels: seq<string>, name: string)
    ensures Select(line, labels) == Some(name) <==> name in labels && line == Begin(name)
  {
    if labels != [] {
      SelectExact(line, labels[1..], name);
      assert labels == [labels[0]] + labels[1..];
      if Begin(labels[0]) == Begin(name) { BeginInjective(labels[0], name); }
    }
  }

  lemma BeginInjective(a: string, b: string)
    requires Begin(a) == Begin(b)
    ensures a == b
  {
    var head, tail := "-----BEGIN ", "-----";
    assert Begin(a) == head + a + tail && Begin(b) == head + b + tail;
    assert a == Begin(a)[|head|..|Begin(a)| - |tail|];
    assert b == Begin(b)[|head|..|Begin(b)| - |tail|];
  }

  /** The lines of a rendering hold no separator. */
  lemma PemLinesPlain(name: string, der: Bytes)
    requires '\n' !in name && '\r' !in name
    ensures Without('\n', PemLines(name, der)) && Without('\r', PemLines(name, der))
  {
    EncodedPlain(der, '\n');
    EncodedPlain(der, '\r');
    WrapWithout('\n', Encode(der));
    WrapWithout('\r', Encode(der));
  }

  lemma {:induction false} JoinEnded(lines: seq<string>, sep: char)
    requires lines != []
    ensures Join(lines + [""], sep) == Join(lines, sep) + [sep]
  {
    if |lines| > 1 {
      JoinEnded(lines[1..], sep);
      assert (lines + [""])[1..] == lines[1..] + [""];
      Regroup(lines[0] + [sep], Join(lines[1..], sep), [sep]);
    } else {
      assert (lines + [""])[1..] == [""];
    }
  }

  lemma {:induction false} JoinWithout(c: char, lines: seq<string>, sep: char)
    requires Without(c, lines) && c != sep
    ensures c !in Join(lines, sep)
  {
    if |lines| > 1 { JoinWithout(c, lines[1..], sep); }
  }

  lemma {:induction false} JoinUnlines(lines: seq<string>)
    ensures Join(lines + [""], '\n') == Unlines(lines)
  {
    if lines != [] {
      JoinUnlines(lines[1..]);
      assert (lines + [""])[1..] == lines[1..] + [""];
    }
  }

  lemma {:induction false} UnlinesLast(lines: seq<string>, last: string)
    ensures Unlines(lines + [last]) == Unlines(lines) + last + "\n"
  {
    if lines == [] {
      assert lines + [last] == [last] && [last][1..] == [];
      assert Unlines([]) == "";
    } else {
      UnlinesLast(lines[1..], last);
      assert (lines + [last])[1..] == lines[1..] + [last];
    }
  }

  /** The rendering, spelled: the opening line, the body's lines, the closing line. */
  lemma RenderSpelled(name: string, der: Bytes)
    ensures Render(name, der) ==
            "-----BEGIN " + name + "-----\n" + Unlines(Wrap(Encode(der))) + "-----END " + name + "-----\n"
  {
    var body := Wrap(Encode(der));
    var front := [Begin(name)] + body;
    JoinUnlines(PemLines(name, der));
    UnlinesLast(front, End(name));
    assert front[1..] == body;
    assert Unlines(front) == Begin(name) + "\n" + Unlines(body);
    assert Begin(name) + "\n" == "-----BEGIN " + name + "-----\n";
    assert End(name) + "\n" == "-----END " + name + "-----\n";
    Regroup(Begin(name) + "\n" + Unlines(body), End(name), "\n");
  }

  /** Splitting a rendering gives back its lines. */
  lemma RenderSplits(name: string, der: Bytes)
    requires '\n' !in name && '\r' !in name
    ensures var text := Render(name, der);
      text != "" && text[|text| - 1] == '\n' && '\r' !in text && Split(text[..|text| - 1], '\n') == PemLines(name, der)
  {
    var lines := PemLines(name, der);
    PemLinesPlain(name, der);
    JoinEnded(lines, '\n');
    JoinWithout('\r', lines, '\n');
    SplitJoin(lines, '\n');
    assert Render(name, der)[..|Render(name, der)| - 1] == Join(lines, '\n');
  }

  /** A rendering of a body passes every check and reads back as its label and its body. */
  lemma RenderReads(name: string, der: Bytes)
    requires der != []
    ensures var lines := PemLines(name, der);
      |lines| >= 3 && lines[0] == Begin(name) && lines[|lines| - 1] == End(name) && Decode(BodyOf(lines)) == Some(der)
  {
    EncodedLength(der);
    ConcatWrap(Encode(der));
    DecodeEncode(der);
    var lines := PemLines(name, der);
    assert lines[1..|lines| - 1] == Wrap(Encode(der));
  }

  predicate Rendered(text: string, name: string, der: Bytes, labels: seq<string>, minimum: nat) {
    && name in labels && minimum <= |der| <= MAX_EMBEDDED_BYTES && der != [] && der[0] == 0x30
    && text == Render(name, der)
  }

  /** Acceptance is exact: the accepted texts are the renderings, under an allowed label, of
      one body of enough bytes that starts as a DER sequence does. */
  lemma PemExact(text: string, labels: seq<string>, minimum: nat)
    requires PlainLabels(labels)
    ensures PemAccepted(text, labels, minimum) <==> exists name, der :: Rendered(text, name, der, labels, minimum)
  {
    if PemAccepted(text, labels, minimum) {
      var lines := Split(text[..|text| - 1], '\n');
      var name, der := Select(lines[0], labels).value, Decode(BodyOf(lines)).value;
      SelectExact(lines[0], labels, name);
      assert Rendered(text, name, der, labels, minimum);
    }
    if exists name, der :: Rendered(text, name, der, labels, minimum) {
      var name, der :| Rendered(text, name, der, labels, minimum);
      RenderAccepted(text, name, der, labels, minimum);
    }
  }

  lemma RenderAccepted(text: string, name: string, der: Bytes, labels: seq<string>, minimum: nat)
    requires PlainLabels(labels) && Rendered(text, name, der, labels, minimum)
    ensures PemAccepted(text, labels, minimum)
  {
    RenderSplits(name, der);
    RenderReads(name, der);
    SelectExact(Begin(name), labels, name);
  }

  /** The label and the body of a rendering are unique. */
  lemma RenderInjective(a: string, x: Bytes, b: string, y: Bytes)
    requires '\n' !in a && '\r' !in a && '\n' !in b && '\r' !in b && x != [] && y != []
    requires Render(a, x) == Render(b, y)
    ensures a == b && x == y
  {
    RenderSplits(a, x);
    RenderSplits(b, y);
    RenderReads(a, x);
    RenderReads(b, y);
    BeginInjective(a, b);
  }

  lemma {:induction false} JoinLength(lines: seq<string>, sep: char)
    ensures |Join(lines, sep)| == |Concat(lines)| + (if lines == [] then 0 else |lines| - 1)
  {
    if |lines| > 1 {
      JoinLength(lines[1..], sep);
    } else if |lines| == 1 {
      var none: seq<string> := [];
      assert lines[1..] == none;
      assert Concat(lines) == lines[0] + Concat(none);
    }
  }

  lemma {:induction false} ConcatPart(lines: seq<string>, n: nat)
    requires n <= |lines|
    ensures |Concat(lines[..n])| <= |Concat(lines)|
  {
    if n > 0 {
      ConcatPart(lines[1..], n - 1);
      assert lines[..n][1..] == lines[1..][..n - 1];
    }
  }

  /** The outer limit makes the inner one unreachable: a body decoded from a text of at most
      131072 characters never has more than 131072 bytes. */
  lemma DerBoundUnreachable(text: string)
    requires 1 <= |text| <= MAX_EMBEDDED_BYTES
    requires |Split(text[..|text| - 1], '\n')| >= 3
    ensures var der := Decode(BodyOf(Split(text[..|text| - 1], '\n')));
      der.Some? ==> |der.value| < MAX_EMBEDDED_BYTES
  {
    var inner := text[..|text| - 1];
    var lines := Split(inner, '\n');
    JoinSplit(inner, '\n');
    JoinLength(lines, '\n');
    var tail := lines[1..];
    assert Concat(lines) == lines[0] + Concat(tail);
    ConcatPart(tail, |tail| - 1);
    assert tail[..|tail| - 1] == lines[1..|lines| - 1];
    DecodedLength(BodyOf(lines));
  }

  predicate Encloses(encoded: string, pem: Bytes, name: string, der: Bytes, labels: seq<string>, minimum: nat) {
    && encoded == Encode(pem) && 1 <= |pem| <= MAX_EMBEDDED_BYTES && (forall i :: 0 <= i < |pem| ==> pem[i] <= 127)
    && name in labels && minimum <= |der| && der != [] && der[0] == 0x30
    && TextOf(pem) == Render(name, der)
  }

  /** The whole reader: a field is accepted exactly when it is the Base64 of the rendering of
      one body, and then its label and its body are unique; the bound on the body itself
      plays no part. */
  lemma CanonicalPemExact(encoded: string, labels: seq<string>, minimum: nat, pem: Bytes)
    requires PlainLabels(labels)
    ensures CanonicalPem(encoded, labels, minimum) == Some(pem) <==>
            exists name, der :: Encloses(encoded, pem, name, der, labels, minimum)
    ensures forall a, x, b, y ::
      Encloses(encoded, pem, a, x, labels, minimum) && Encloses(encoded, pem, b, y, labels, minimum) ==>
        a == b && x == y
  {
    CanonicalBase64Exact(encoded, pem);
    if Ascii(pem) {
      var text := TextOf(pem);
      PemExact(text, labels, minimum);
      if CanonicalPem(encoded, labels, minimum) == Some(pem) {
        var name, der :| Rendered(text, name, der, labels, minimum);
        assert Encloses(encoded, pem, name, der, labels, minimum);
      }
      if exists name, der :: Encloses(encoded, pem, name, der, labels, minimum) {
        var name, der :| Encloses(encoded, pem, name, der, labels, minimum);
        EnclosedBound(text, name, der);
        assert Rendered(text, name, der, labels, minimum);
      }
    }
    forall a, x, b, y | Encloses(encoded, pem, a, x, labels, minimum) && Encloses(encoded, pem, b, y, labels, minimum)
      ensures a == b && x == y
    {
      RenderInjective(a, x, b, y);
    }
  }

  lemma EnclosedBound(text: string, name: string, der: Bytes)
    requires '\n' !in name && '\r' !in name && der != []
    requires 1 <= |text| <= MAX_EMBEDDED_BYTES && text == Render(name, der)
    ensures |der| <= MAX_EMBEDDED_BYTES
  {
    RenderSplits(name, der);
    RenderReads(name, der);
    DerBoundUnreachable(text);
  }
}
