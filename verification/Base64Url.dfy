/** Unpadded base64url (section 5 of RFC 4648) as Go's `base64.RawURLEncoding` reads and writes it. */
module Base64Url {
  import opened Text

  type Sextet = n: int | 0 <= n < 64

  function Symbol(n: Sextet): (c: char)
    ensures InAlphabet(c)
  {
    if n < 26 then ('A' as int + n) as char
    else if n < 52 then ('a' as int + (n - 26)) as char
    else if n < 62 then ('0' as int + (n - 52)) as char
    else if n == 62 then '-' else '_'
  }

  predicate InAlphabet(c: char) {
    'A' <= c <= 'Z' || 'a' <= c <= 'z' || '0' <= c <= '9' || c == '-' || c == '_'
  }

  function SymbolValue(c: char): Sextet
    requires InAlphabet(c)
  {
    if 'A' <= c <= 'Z' then c as int - 'A' as int
    else if 'a' <= c <= 'z' then c as int - 'a' as int + 26
    else if '0' <= c <= '9' then c as int - '0' as int + 52
    else if c == '-' then 62 else 63
  }

  function Group(x: Byte, y: Byte, z: Byte): (s: string)
    ensures |s| == 4 && forall i :: 0 <= i < 4 ==> InAlphabet(s[i])
  {
    var x, y, z := x as int, y as int, z as int;
    [Symbol(x / 4), Symbol(x % 4 * 16 + y / 16), Symbol(y % 16 * 4 + z / 64), Symbol(z % 64)]
  }

  /** Three bytes make four symbols; a short last group drops the symbols it does not need. */
  function Encode(b: seq<Byte>): (s: string)
    ensures forall i :: 0 <= i < |s| ==> InAlphabet(s[i])
  {
    if b == [] then ""
    else if |b| == 1 then Group(b[0], 0, 0)[..2]
    else if |b| == 2 then Group(b[0], b[1], 0)[..3]
    else Group(b[0], b[1], b[2]) + Encode(b[3..])
  }

  function FirstByte(p: Sextet, q: Sextet): Byte { (p * 4 + q / 16) as Byte }

  function SecondByte(q: Sextet, r: Sextet): Byte { (q % 16 * 16 + r / 4) as Byte }

  function ThirdByte(r: Sextet, t: Sextet): Byte { (r % 4 * 64 + t) as Byte }

  /** The bytes `DecodeString` hands back: whole groups up to the first group that holds a foreign symbol
      or a lone last symbol. Bits left over in a short last group are dropped without a check. */
  function Decode(s: string): seq<Byte> {
    if |s| < 2 || !InAlphabet(s[0]) || !InAlphabet(s[1]) then []
    else
      var p, q := SymbolValue(s[0]), SymbolValue(s[1]);
      if |s| == 2 then [FirstByte(p, q)]
      else if !InAlphabet(s[2]) then []
      else
        var r := SymbolValue(s[2]);
        if |s| == 3 then [FirstByte(p, q), SecondByte(q, r)]
        else if !InAlphabet(s[3]) then []
        else [FirstByte(p, q), SecondByte(q, r), ThirdByte(r, SymbolValue(s[3]))] + Decode(s[4..])
  }

  lemma SymbolRoundTrip(n: Sextet)
    ensures SymbolValue(Symbol(n)) == n
  {}

  lemma GroupBits(x: int, y: int, z: int)
    requires 0 <= x < 256 && 0 <= y < 256 && 0 <= z < 256
    ensures x / 4 * 4 + (x % 4 * 16 + y / 16) / 16 == x
    ensures (x % 4 * 16 + y / 16) % 16 * 16 + (y % 16 * 4 + z / 64) / 4 == y
    ensures (y % 16 * 4 + z / 64) % 4 * 64 + z % 64 == z
  {}

  lemma GroupRoundTrip(x: Byte, y: Byte, z: Byte)
    ensures var g := Group(x, y, z);
      && FirstByte(SymbolValue(g[0]), SymbolValue(g[1])) == x
      && SecondByte(SymbolValue(g[1]), SymbolValue(g[2])) == y
      && ThirdByte(SymbolValue(g[2]), SymbolValue(g[3])) == z
  {
    hide Symbol, SymbolValue, InAlphabet;
    var x, y, z := x as int, y as int, z as int;
    SymbolRoundTrip(x / 4);
    SymbolRoundTrip(x % 4 * 16 + y / 16);
    SymbolRoundTrip(y % 16 * 4 + z / 64);
    SymbolRoundTrip(z % 64);
    GroupBits(x, y, z);
  }

  /** Decoding gives back every byte string that was encoded. */
  lemma {:induction false} DecodeEncode(b: seq<Byte>)
    ensures Decode(Encode(b)) == b
  {
    hide Symbol, SymbolValue, InAlphabet, Group, FirstByte, SecondByte, ThirdByte;
    if |b| >= 3 {
      GroupRoundTrip(b[0], b[1], b[2]);
      DecodeEncode(b[3..]);
      assert Encode(b)[4..] == Encode(b[3..]);
      assert b == [b[0], b[1], b[2]] + b[3..];
    } else if |b| == 2 {
      GroupRoundTrip(b[0], b[1], 0);
    } else if |b| == 1 {
      GroupRoundTrip(b[0], 0, 0);
    }
  }

  // ---- the encoding itself ------------------------------------------------

  /** The symbols in order: capital letters, small letters, digits, minus and underscore. */
  lemma AlphabetOrder(n: Sextet)
    ensures n < 26 ==> Symbol(n) as int == 65 + n
    ensures 26 <= n < 52 ==> Symbol(n) as int == 97 + n - 26
    ensures 52 <= n < 62 ==> Symbol(n) as int == 48 + n - 52
    ensures n == 62 ==> Symbol(n) == '-'
    ensures n == 63 ==> Symbol(n) == '_'
  {}

  /** The number that symbols spell, six bits each, most significant first. */
  function Spelled(s: string): int
    requires forall i :: 0 <= i < |s| ==> InAlphabet(s[i])
  {
    if s == "" then 0 else 64 * Spelled(s[..|s| - 1]) + SymbolValue(s[|s| - 1])
  }

  /** Three bytes become the four symbols that spell the same 24 bits. */
  lemma GroupBigEndian(x: Byte, y: Byte, z: Byte)
    ensures Spelled(Group(x, y, z)) == (x as int * 256 + y as int) * 256 + z as int
  {
    var g := Group(x, y, z);
    var a, b, c := x as int, y as int, z as int;
    assert g[..3][..2] == g[..2] && g[..2][..1] == g[..1] && g[..1][..0] == "";
    SymbolRoundTrip(a / 4);
    SymbolRoundTrip(a % 4 * 16 + b / 16);
    SymbolRoundTrip(b % 16 * 4 + c / 64);
    SymbolRoundTrip(c % 64);
    hide Symbol, SymbolValue;
    assert Spelled(g[..0]) == 0;
    assert Spelled(g[..1]) == SymbolValue(g[0]);
    assert Spelled(g[..2]) == 64 * SymbolValue(g[0]) + SymbolValue(g[1]);
    assert Spelled(g[..3]) == 64 * (64 * SymbolValue(g[0]) + SymbolValue(g[1])) + SymbolValue(g[2]);
    assert g == g[..3] + [g[3]];
  }

  lemma EncodeLength(b: seq<Byte>)
    ensures |Encode(b)| == 4 * (|b| / 3) + (if |b| % 3 == 0 then 0 else |b| % 3 + 1)
    decreases |b|
  {
    hide Group;
    if |b| >= 3 { EncodeLength(b[3..]); }
  }

  lemma {:induction false} EncodeFrom(b: seq<Byte>, i: nat)
    requires 3 * i <= |b|
    ensures 4 * i <= |Encode(b)| && Encode(b)[4 * i..] == Encode(b[3 * i..])
    decreases i
  {
    if i == 0 {
      assert b[0..] == b && Encode(b)[0..] == Encode(b);
    } else {
      var head, rest := Group(b[0], b[1], b[2]), b[3..];
      assert Encode(b) == head + Encode(rest);
      hide Encode, Group;
      EncodeFrom(rest, i - 1);
      assert (head + Encode(rest))[4 * i..] == Encode(rest)[4 * (i - 1)..];
      assert rest[3 * (i - 1)..] == b[3 * i..];
    }
  }

  /** The groups stand in order without padding; a last one of one or two bytes keeps its first two or three symbols. */
  lemma EncodeLayout(b: seq<Byte>, i: nat)
    ensures |Encode(b)| == 4 * (|b| / 3) + (if |b| % 3 == 0 then 0 else |b| % 3 + 1)
    ensures 3 * i + 3 <= |b| ==> Group(b[3 * i], b[3 * i + 1], b[3 * i + 2]) <= Encode(b)[4 * i..]
    ensures |b| == 3 * i + 1 ==> Encode(b)[4 * i..] == Group(b[3 * i], 0, 0)[..2]
    ensures |b| == 3 * i + 2 ==> Encode(b)[4 * i..] == Group(b[3 * i], b[3 * i + 1], 0)[..3]
  {
    EncodeLength(b);
    if 3 * i < |b| {
      EncodeFrom(b, i);
      var rest := b[3 * i..];
      hide Group;
    }
  }
}
