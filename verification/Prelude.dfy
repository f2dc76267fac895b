/** Result types shared by every component, and the two text encodings that the key
    layouts rest on: decimal numbers and percent-encoded UTF-8. */

module Wrappers {
  datatype Option<+T> = None | Some(value: T)

  datatype Result<+T, +E> = Ok(value: T) | Err(error: E)
}

/** Facts about concatenation, stated once where proofs would search for them again and again. */
module Lists {
  lemma Assoc<T>(a: seq<T>, b: seq<T>, c: seq<T>)
    ensures a + (b + c) == a + b + c
  {
  }

  lemma FirstAndRest<T>(s: seq<T>)
    requires s != []
    ensures s == [s[0]] + s[1..]
  {
  }

  lemma FrontAndLast<T>(s: seq<T>)
    requires s != []
    ensures s == s[..|s| - 1] + [s[|s| - 1]]
  {
  }

  lemma ConsAppend<T>(s: seq<T>, t: seq<T>)
    requires s != []
    ensures (s + t)[0] == s[0] && (s + t)[1..] == s[1..] + t
  {
  }

  lemma CutAppend<T>(s: seq<T>, t: seq<T>)
    ensures (s + t)[..|s|] == s && (s + t)[|s|..] == t
  {
  }
}

module Decimal {
  function Digit(d: nat): char
    requires d < 10
  {
    '0' + d as char
  }

  // The decimal form that string interpolation gives to a natural number.
  function Print(n: nat): string {
    if n < 10 then [Digit(n)] else Print(n / 10) + [Digit(n % 10)]
  }

  function Read(s: string): int {
    if s == [] then 0 else Read(s[..|s| - 1]) * 10 + (s[|s| - 1] as int - '0' as int)
  }

  lemma {:induction false} ReadPrint(n: nat)
    ensures Read(Print(n)) == n
  {
    if n < 10 {
      assert Print(n)[..0] == [];
    } else {
      ReadPrint(n / 10);
      assert Print(n)[..|Print(n)| - 1] == Print(n / 10);
    }
  }

  // Decimal digits, the highest first.
  lemma PrintExactly(n: nat, d: nat)
    requires d < 10
    ensures Print(d) == ["0123456789"[d]]
    ensures n > 0 ==> Print(10 * n + d) == Print(n) + Print(d)
  {
    assert n > 0 ==> (10 * n + d) / 10 == n && (10 * n + d) % 10 == d;
  }

  lemma PrintInjective(m: nat, n: nat)
    ensures Print(m) == Print(n) ==> m == n
  {
    ReadPrint(m);
    ReadPrint(n);
  }
}

/** UTF-8, RFC 3629 section 3. */
module Utf8 {
  import opened Wrappers

  newtype byte = n: int | 0 <= n < 256

  function EncodeChar(c: char): (bytes: seq<byte>)
    ensures 1 <= |bytes| <= 4
  {
    var n := c as int;
    if n < 0x80 then [n as byte]
    else if n < 0x800 then [(0xC0 + n / 64) as byte, (0x80 + n % 64) as byte]
    else if n < 0x10000 then
      [(0xE0 + n / 4096) as byte, (0x80 + n / 64 % 64) as byte, (0x80 + n % 64) as byte]
    else
      [(0xF0 + n / 262144) as byte, (0x80 + n / 4096 % 64) as byte,
       (0x80 + n / 64 % 64) as byte, (0x80 + n % 64) as byte]
  }

  function Encode(s: string): seq<byte> {
    if s == [] then [] else EncodeChar(s[0]) + Encode(s[1..])
  }

  predicate Continuation(b: byte) { 0x80 <= b < 0xC0 }

  predicate Scalar(n: int) { 0 <= n < 0xD800 || 0xE000 <= n < 0x110000 }

  // The first character and the number of bytes it takes; overlong forms,
  // surrogates and truncated sequences are refused.
  function DecodeChar(bytes: seq<byte>): (r: Option<(char, nat)>)
    requires bytes != []
    ensures r.Some? ==> 1 <= r.value.1 <= |bytes|
  {
    var b0 := bytes[0] as int;
    if b0 < 0x80 then Some((b0 as char, 1))
    else if 0xC2 <= b0 < 0xE0 then
      if |bytes| >= 2 && Continuation(bytes[1]) then
        Some((((b0 - 0xC0) * 64 + (bytes[1] as int - 0x80)) as char, 2))
      else None
    else if 0xE0 <= b0 < 0xF0 then
      if |bytes| >= 3 && Continuation(bytes[1]) && Continuation(bytes[2]) then
        var n := (b0 - 0xE0) * 4096 + (bytes[1] as int - 0x80) * 64 + (bytes[2] as int - 0x80);
        if n >= 0x800 && Scalar(n) then Some((n as char, 3)) else None
      else None
    else if 0xF0 <= b0 < 0xF5 then
      if |bytes| >= 4 && Continuation(bytes[1]) && Continuation(bytes[2]) && Continuation(bytes[3]) then
        var n := (b0 - 0xF0) * 262144 + (bytes[1] as int - 0x80) * 4096
                 + (bytes[2] as int - 0x80) * 64 + (bytes[3] as int - 0x80);
        if n >= 0x10000 && Scalar(n) then Some((n as char, 4)) else None
      else None
    else None
  }

  function Decode(bytes: seq<byte>): Option<string> {
    if bytes == [] then Some([])
    else
      match DecodeChar(bytes)
      case None => None
      case Some((c, width)) =>
        match Decode(bytes[width..])
        case None => None
        case Some(rest) => Some([c] + rest)
  }

  lemma DecodeCharEncodeChar(c: char, tail: seq<byte>)
    ensures DecodeChar(EncodeChar(c) + tail) == Some((c, |EncodeChar(c)|))
  {
    var n := c as int;
    assert n == n / 64 * 64 + n % 64;
    assert n / 64 == n / 4096 * 64 + n / 64 % 64;
    assert n / 4096 == n / 262144 * 64 + n / 4096 % 64;
    var bytes := EncodeChar(c) + tail;
    assert forall i | 0 <= i < |EncodeChar(c)| :: bytes[i] == EncodeChar(c)[i];
  }

  lemma {:induction false} DecodeEncode(s: string)
    ensures Decode(Encode(s)) == Some(s)
  {
    if s != [] {
      var head, tail := EncodeChar(s[0]), Encode(s[1..]);
      DecodeCharEncodeChar(s[0], tail);
      assert (head + tail)[|head|..] == tail;
      DecodeEncode(s[1..]);
      assert s == [s[0]] + s[1..];
    }
  }

  lemma Groups(a: nat, b: nat, c: nat, d: nat)
    requires b < 64 && c < 64 && d < 64
    ensures var n := a * 262144 + b * 4096 + c * 64 + d;
      n % 64 == d && n / 64 % 64 == c && n / 4096 % 64 == b && n / 262144 == a
  {
    var n := a * 262144 + b * 4096 + c * 64 + d;
    assert n / 64 == a * 4096 + b * 64 + c;
    assert n / 4096 == a * 64 + b;
  }

  lemma TwoBytes(bytes: seq<byte>)
    requires bytes != [] && DecodeChar(bytes).Some? && DecodeChar(bytes).value.1 == 2
    ensures bytes[..2] == EncodeChar(DecodeChar(bytes).value.0)
  {
    Groups(0, 0, bytes[0] as int - 0xC0, bytes[1] as int - 0x80);
  }

  lemma ThreeBytes(bytes: seq<byte>)
    requires bytes != [] && DecodeChar(bytes).Some? && DecodeChar(bytes).value.1 == 3
    ensures bytes[..3] == EncodeChar(DecodeChar(bytes).value.0)
  {
    Groups(0, bytes[0] as int - 0xE0, bytes[1] as int - 0x80, bytes[2] as int - 0x80);
  }

  lemma FourBytes(bytes: seq<byte>)
    requires bytes != [] && DecodeChar(bytes).Some? && DecodeChar(bytes).value.1 == 4
    ensures bytes[..4] == EncodeChar(DecodeChar(bytes).value.0)
  {
    Groups(bytes[0] as int - 0xF0, bytes[1] as int - 0x80, bytes[2] as int - 0x80, bytes[3] as int - 0x80);
  }

  lemma EncodeCharDecodeChar(bytes: seq<byte>)
    requires bytes != [] && DecodeChar(bytes).Some?
    ensures var (c, width) := DecodeChar(bytes).value; bytes[..width] == EncodeChar(c)
  {
    var width := DecodeChar(bytes).value.1;
    if width == 2 {
      TwoBytes(bytes);
    } else if width == 3 {
      ThreeBytes(bytes);
    } else if width == 4 {
      FourBytes(bytes);
    }
  }

  lemma EncodeCons(c: char, rest: string)
    ensures Encode([c] + rest) == EncodeChar(c) + Encode(rest)
  {
    assert ([c] + rest)[1..] == rest;
  }

  lemma CutAt(bytes: seq<byte>, n: nat)
    requires n <= |bytes|
    ensures bytes[..n] + bytes[n..] == bytes
  {
  }

  // Nothing but the encoding of a text is decoded to it.
  lemma {:induction false} EncodeDecode(bytes: seq<byte>)
    requires Decode(bytes).Some?
    ensures Encode(Decode(bytes).value) == bytes
    decreases |bytes|
  {
    if bytes != [] {
      var (c, width) := DecodeChar(bytes).value;
      EncodeCharDecodeChar(bytes);
      EncodeDecode(bytes[width..]);
      EncodeCons(c, Decode(bytes[width..]).value);
      CutAt(bytes, width);
    }
  }
}

/** Where characters start in UTF-8. */
module Characters {
  import Lists
  import opened Utf8

  lemma {:induction false} EncodeAppend(a: string, b: string)
    ensures Encode(a + b) == Encode(a) + Encode(b)
  {
    if a == [] {
      assert a + b == b;
    } else {
      EncodeAppend(a[1..], b);
      Lists.ConsAppend(a, b);
      Lists.Assoc(EncodeChar(a[0]), Encode(a[1..]), Encode(b));
    }
  }

  lemma OnlyFirstStarts(c: char)
    ensures !Continuation(EncodeChar(c)[0])
    ensures forall i | 1 <= i < |EncodeChar(c)| :: Continuation(EncodeChar(c)[i])
  {
  }

  // Plain text is its own encoding.
  lemma {:induction false} EncodeAscii(s: string)
    requires forall i | 0 <= i < |s| :: s[i] as int < 128
    ensures |Encode(s)| == |s| && forall i | 0 <= i < |s| :: Encode(s)[i] as int == s[i] as int
  {
    if s != [] {
      EncodeAscii(s[1..]);
    }
  }

  // How many bytes a character takes.
  lemma EncodedLength(c: char)
    ensures |EncodeChar(c)| ==
      if c as int < 0x80 then 1 else if c as int < 0x800 then 2 else if c as int < 0x10000 then 3 else 4
  {
  }

  // A position of the encoded text at which a character of it starts, or its end.
  ghost predicate AtCharacter(text: string, p: nat) {
    exists k :: 0 <= k <= |text| && p == |Encode(text[..k])|
  }

  lemma AtCharacterNext(text: string, p: nat)
    requires text != []
    ensures AtCharacter(text, p) <==>
            p == 0 || (p >= |EncodeChar(text[0])| && AtCharacter(text[1..], p - |EncodeChar(text[0])|))
  {
    var (n, rest) := (|EncodeChar(text[0])|, text[1..]);
    assert text[..0] == [];
    forall k | 1 <= k <= |text| ensures |Encode(text[..k])| == n + |Encode(rest[..k - 1])| {
      assert text[..k][1..] == rest[..k - 1];
    }
    if p >= n && AtCharacter(rest, p - n) {
      var k :| 0 <= k <= |rest| && p - n == |Encode(rest[..k])|;
      assert p == |Encode(text[..k + 1])|;
    }
  }

  // Exactly the bytes that continue a character are not at a character.
  lemma {:induction false} BoundaryExactly(text: string, p: nat)
    requires p <= |Encode(text)|
    ensures AtCharacter(text, p) <==> p == |Encode(text)| || !Continuation(Encode(text)[p])
  {
    if text == [] {
      assert text[..0] == [];
    } else {
      var (n, rest) := (|EncodeChar(text[0])|, text[1..]);
      AtCharacterNext(text, p);
      OnlyFirstStarts(text[0]);
      if p >= n {
        BoundaryExactly(rest, p - n);
      }
    }
  }
}

/** Cutting text at separators. */
module Cut {
  import opened Wrappers

  // The text before and after the first separator.
  function Once(s: string, separator: char): Option<(string, string)> {
    if s == [] then None
    else if s[0] == separator then Some(([], s[1..]))
    else
      match Once(s[1..], separator)
      case None => None
      case Some((head, tail)) => Some(([s[0]] + head, tail))
  }

  function Join(parts: seq<string>, separator: char): string {
    if parts == [] then []
    else if |parts| == 1 then parts[0]
    else parts[0] + [separator] + Join(parts[1..], separator)
  }

  // All pieces between separators, empty ones included.
  function Split(s: string, separator: char): seq<string>
    decreases |s|
  {
    match Once(s, separator)
    case None => [s]
    case Some((head, tail)) =>
      OnceShortens(s, separator);
      [head] + Split(tail, separator)
  }

  lemma {:induction false} OnceShortens(s: string, separator: char)
    ensures var r := Once(s, separator);
      match r
      case None => separator !in s
      case Some((head, tail)) => s == head + [separator] + tail && separator !in head
  {
    if s != [] && s[0] != separator {
      OnceShortens(s[1..], separator);
    }
  }

  lemma {:induction false} OnceJoined(head: string, tail: string, separator: char)
    requires separator !in head
    ensures Once(head + [separator] + tail, separator) == Some((head, tail))
  {
    var s := head + [separator] + tail;
    if head == [] {
      assert s[1..] == tail;
    } else {
      OnceJoined(head[1..], tail, separator);
      assert s[1..] == head[1..] + [separator] + tail;
      assert head == [head[0]] + head[1..];
    }
  }

  lemma {:induction false} OnceAbsent(s: string, separator: char)
    requires separator !in s
    ensures Once(s, separator) == None
  {
    if s != [] {
      OnceAbsent(s[1..], separator);
    }
  }

  lemma {:induction false} SplitJoin(parts: seq<string>, separator: char)
    requires parts != []
    requires forall part | part in parts :: separator !in part
    ensures Split(Join(parts, separator), separator) == parts
  {
    if |parts| == 1 {
      OnceAbsent(parts[0], separator);
    } else {
      OnceJoined(parts[0], Join(parts[1..], separator), separator);
      SplitJoin(parts[1..], separator);
    }
  }

  lemma {:induction false} SplitPieces(s: string, separator: char)
    ensures Split(s, separator) != []
    ensures forall part | part in Split(s, separator) :: separator !in part
    decreases |s|
  {
    OnceShortens(s, separator);
    match Once(s, separator)
    case None =>
    case Some((_, tail)) => SplitPieces(tail, separator);
  }

  // Joining two parts loses nothing when the first has no separator in it.
  lemma JoinInjective(a: string, b: string, c: string, d: string, separator: char)
    requires separator !in a && separator !in c
    requires a + [separator] + b == c + [separator] + d
    ensures a == c && b == d
  {
    OnceJoined(a, b, separator);
    OnceJoined(c, d, separator);
  }
}

/** Percent-encoding, RFC 3986 section 2.1, with the set of bytes left as they are a parameter:
    `encodeURIComponent` keeps ASCII letters, digits and "-_.!~*'()", the Rust URI builder
    keeps letters and digits only. */
module Percent {
  import Lists
  import opened Wrappers
  import opened Utf8

  datatype Kept = Component | AlphanumericOnly

  predicate Alphanumeric(n: int) {
    48 <= n < 58 || 65 <= n < 91 || 97 <= n < 123
  }

  predicate Keeps(kept: Kept, b: byte) {
    || Alphanumeric(b as int)
    || (kept == Component && b in [45, 95, 46, 33, 126, 42, 39, 40, 41])
  }

  function Hex(n: int): (c: char)
    requires 0 <= n < 16
  {
    if n < 10 then '0' + n as char else 'A' + (n - 10) as char
  }

  function HexValue(c: char): (n: int)
    ensures -1 <= n < 16
  {
    if '0' <= c <= '9' then c as int - '0' as int
    else if 'A' <= c <= 'F' then c as int - 'A' as int + 10
    else if 'a' <= c <= 'f' then c as int - 'a' as int + 10
    else -1
  }

  function EncodeByte(kept: Kept, b: byte): (s: string)
    ensures s != []
  {
    if Keeps(kept, b) then [b as char] else ['%', Hex(b as int / 16), Hex(b as int % 16)]
  }

  function EncodeBytes(kept: Kept, bytes: seq<byte>): string {
    if bytes == [] then [] else EncodeByte(kept, bytes[0]) + EncodeBytes(kept, bytes[1..])
  }

  function Encode(kept: Kept, text: string): string {
    EncodeBytes(kept, Utf8.Encode(text))
  }

  // A '%' that two hexadecimal digits do not follow stands for itself, and so
  // does every other character.
  function DecodeBytes(s: string): seq<byte> {
    if s == [] then []
    else if s[0] == '%' && |s| >= 3 && HexValue(s[1]) >= 0 && HexValue(s[2]) >= 0 then
      [(HexValue(s[1]) * 16 + HexValue(s[2])) as byte] + DecodeBytes(s[3..])
    else EncodeChar(s[0]) + DecodeBytes(s[1..])
  }

  function Decode(s: string): Option<string> {
    Utf8.Decode(DecodeBytes(s))
  }

  // The characters an encoded text is made of: no separator of a path or a query.
  predicate Plain(c: char) {
    c == '%' || Alphanumeric(c as int) || c in "-_.!~*'()"
  }

  lemma DecodeNext(kept: Kept, b: byte, tail: string)
    ensures DecodeBytes(EncodeByte(kept, b) + tail) == [b] + DecodeBytes(tail)
  {
    var s := EncodeByte(kept, b) + tail;
    Lists.CutAppend(EncodeByte(kept, b), tail);
    if Keeps(kept, b) {
      assert s[0] == b as char && s[1..] == tail;
    } else {
      assert s[0] == '%' && s[1] == Hex(b as int / 16) && s[2] == Hex(b as int % 16) && s[3..] == tail;
    }
  }

  lemma {:induction false} DecodeBytesEncodeBytes(kept: Kept, bytes: seq<byte>)
    ensures DecodeBytes(EncodeBytes(kept, bytes)) == bytes
  {
    if bytes != [] {
      DecodeBytesEncodeBytes(kept, bytes[1..]);
      DecodeNext(kept, bytes[0], EncodeBytes(kept, bytes[1..]));
      Lists.FirstAndRest(bytes);
    }
  }

  const UPPER := "0123456789ABCDEF"
  const LOWER := "0123456789abcdef"

  // Hexadecimal digits of either case are read, upper ones are written.
  lemma HexExactly(c: char)
    ensures HexValue(c) == -1 <==> c !in UPPER && c !in LOWER
    ensures forall n | 0 <= n < 16 :: HexValue(UPPER[n]) == n && HexValue(LOWER[n]) == n && Hex(n) == UPPER[n]
  {
    assert UPPER[0] == '0' && UPPER[1] == '1' && UPPER[2] == '2' && UPPER[3] == '3' && UPPER[4] == '4';
    assert UPPER[5] == '5' && UPPER[6] == '6' && UPPER[7] == '7' && UPPER[8] == '8' && UPPER[9] == '9';
    assert UPPER[10] == 'A' && UPPER[11] == 'B' && UPPER[12] == 'C' && UPPER[13] == 'D' && UPPER[14] == 'E';
    assert LOWER[10] == 'a' && LOWER[11] == 'b' && LOWER[12] == 'c' && LOWER[13] == 'd' && LOWER[14] == 'e';
    assert UPPER[15] == 'F' && LOWER[15] == 'f';
    if HexValue(c) >= 0 {
      assert c == UPPER[HexValue(c)] || c == LOWER[HexValue(c)];
    }
  }

  const MARKS := "-_.!~*'()"

  // A byte is written as itself if it is a letter or a digit or, in a component, one of nine marks, and otherwise as
  // a percent sign with two upper hexadecimal digits.
  lemma WrittenExactly(kept: Kept, b: byte)
    ensures var c := b as char;
      EncodeByte(kept, b) ==
      if '0' <= c <= '9' || 'A' <= c <= 'Z' || 'a' <= c <= 'z' || (kept == Component && c in MARKS) then [c]
      else ['%', UPPER[b as int / 16], UPPER[b as int % 16]]
  {
    HexExactly('0');
    MarksAre(b as char);
  }

  predicate HexDigit(c: char) { c in UPPER || c in LOWER }

  lemma HexMember(c: char)
    ensures HexDigit(c) <==> HexValue(c) >= 0
  {
    HexExactly(c);
    if c in UPPER {
      var i :| 0 <= i < |UPPER| && UPPER[i] == c;
    } else if c in LOWER {
      var i :| 0 <= i < |LOWER| && LOWER[i] == c;
    }
  }

  // A percent sign and two hexadecimal digits of either case stand for a byte.
  lemma ReadEscape(x: nat, y: nat, a: char, b: char, rest: string)
    requires x < 16 && y < 16 && a in [UPPER[x], LOWER[x]] && b in [UPPER[y], LOWER[y]]
    ensures DecodeBytes(['%', a, b] + rest) == [(16 * x + y) as byte] + DecodeBytes(rest)
  {
    HexExactly(a);
    HexExactly(b);
    EscapeCut(x, y, a, b, rest);
  }

  lemma EscapeCut(x: nat, y: nat, a: char, b: char, rest: string)
    requires x < 16 && y < 16 && HexValue(a) == x && HexValue(b) == y
    ensures DecodeBytes(['%', a, b] + rest) == [(16 * x + y) as byte] + DecodeBytes(rest)
  {
    assert (['%', a, b] + rest)[3..] == rest;
  }

  // Every other character stands for itself, a lone percent sign too.
  lemma ReadPlain(c: char, rest: string)
    requires c != '%' || |rest| < 2 || !HexDigit(rest[0]) || !HexDigit(rest[1])
    ensures DecodeBytes([c] + rest) == EncodeChar(c) + DecodeBytes(rest)
  {
    assert ([c] + rest)[1..] == rest;
    if |rest| >= 2 {
      HexMember(rest[0]);
      HexMember(rest[1]);
    }
  }

  lemma MarksAre(c: char)
    ensures c in MARKS <==> c as int in [45, 95, 46, 33, 126, 42, 39, 40, 41]
  {
    assert MARKS[0] == '-' && MARKS[1] == '_' && MARKS[2] == '.' && MARKS[3] == '!' && MARKS[4] == '~';
    assert MARKS[5] == '*' && MARKS[6] == 39 as char && MARKS[7] == '(' && MARKS[8] == ')';
  }

  // A text of letters and digits is not changed.
  lemma {:induction false} EncodeWord(kept: Kept, text: string)
    requires forall c | c in text :: '0' <= c <= '9' || 'A' <= c <= 'Z' || 'a' <= c <= 'z'
    ensures Encode(kept, text) == text
  {
    if text != [] {
      assert text[0] in text && forall c | c in text[1..] :: c in text;
      EncodeWord(kept, text[1..]);
      var b := text[0] as int as byte;
      assert Utf8.Encode(text) == [b] + Utf8.Encode(text[1..]);
      assert EncodeByte(kept, b) == [text[0]];
      Lists.FirstAndRest(text);
      assert ([b] + Utf8.Encode(text[1..]))[1..] == Utf8.Encode(text[1..]);
    }
  }

  lemma DecodeEncode(kept: Kept, text: string)
    ensures Decode(Encode(kept, text)) == Some(text)
  {
    DecodeBytesEncodeBytes(kept, Utf8.Encode(text));
    Utf8.DecodeEncode(text);
  }

  lemma EncodeInjective(kept: Kept, a: string, b: string)
    ensures Encode(kept, a) == Encode(kept, b) ==> a == b
  {
    DecodeEncode(kept, a);
    DecodeEncode(kept, b);
  }

  lemma {:induction false} EncodeBytesPlain(kept: Kept, bytes: seq<byte>)
    ensures forall c | c in EncodeBytes(kept, bytes) :: Plain(c)
  {
    if bytes != [] {
      EncodeBytesPlain(kept, bytes[1..]);
    }
  }

  lemma EncodePlain(kept: Kept, text: string)
    ensures forall c | c in Encode(kept, text) :: Plain(c)
    ensures text != [] ==> Encode(kept, text) != []
  {
    EncodeBytesPlain(kept, Utf8.Encode(text));
  }
}
