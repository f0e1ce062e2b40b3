/** Cutting a byte string to a length without cutting a character (section 4 of RFC 3629). */
module Utf8 {
  import opened Text

  predicate Tail(b: Byte) { 0x80 <= b <= 0xBF }

  /** Length of the well-formed character a byte string starts with, or zero. */
  function RuneLength(s: seq<Byte>): (n: nat)
    ensures n <= 4 && n <= |s|
  {
    if s == [] then 0
    else if s[0] <= 0x7F then 1
    else if 0xC2 <= s[0] <= 0xDF then
      if |s| >= 2 && Tail(s[1]) then 2 else 0
    else if 0xE0 <= s[0] <= 0xEF then
      if |s| >= 3 && Tail(s[1]) && Tail(s[2]) && (s[0] == 0xE0 ==> s[1] >= 0xA0) &&
          (s[0] == 0xED ==> s[1] <= 0x9F) then 3 else 0
    else if 0xF0 <= s[0] <= 0xF4 then
      if |s| >= 4 && Tail(s[1]) && Tail(s[2]) && Tail(s[3]) && (s[0] == 0xF0 ==> s[1] >= 0x90) &&
          (s[0] == 0xF4 ==> s[1] <= 0x8F)
      then 4 else 0
    else 0
  }

  /** `utf8.ValidString`. */
  predicate Valid(s: seq<Byte>)
    decreases |s|
  {
    s == [] || (RuneLength(s) > 0 && Valid(s[RuneLength(s)..]))
  }

  /** A Unicode scalar value: a code point that is no surrogate. */
  type Scalar = n: int | 0 <= n < 0xD800 || 0xE000 <= n <= 0x10FFFF

  /** The bytes of a scalar value, by the table of section 3 of RFC 3629. */
  function Encoded(c: Scalar): seq<Byte> {
    if c < 0x80 then [c as Byte]
    else if c < 0x800 then [(0xC0 + c / 64) as Byte, (0x80 + c % 64) as Byte]
    else if c < 0x1_0000 then [(0xE0 + c / 4096) as Byte, (0x80 + c / 64 % 64) as Byte, (0x80 + c % 64) as Byte]
    else [(0xF0 + c / 0x4_0000) as Byte, (0x80 + c / 4096 % 64) as Byte, (0x80 + c / 64 % 64) as Byte,
        (0x80 + c % 64) as Byte]
  }

  function EncodedAll(cs: seq<Scalar>): seq<Byte> {
    if cs == [] then [] else Encoded(cs[0]) + EncodedAll(cs[1..])
  }

  /** A text that starts with an encoded scalar starts with a character of that length. */
  lemma EncodedIsRune(c: Scalar, rest: seq<Byte>)
    ensures RuneLength(Encoded(c) + rest) == |Encoded(c)| > 0
  {}

  lemma Digits64(h: int, x: int, y: int, z: int)
    requires 0 <= h && 0 <= x < 64 && 0 <= y < 64 && 0 <= z < 64
    ensures var c := ((h * 64 + x) * 64 + y) * 64 + z;
      c % 64 == z && c / 64 % 64 == y && c / 4096 % 64 == x && c / 0x4_0000 == h
  {
    var c := ((h * 64 + x) * 64 + y) * 64 + z;
    assert c / 64 == (h * 64 + x) * 64 + y && c / 4096 == c / 64 / 64 && c / 0x4_0000 == c / 4096 / 64;
  }

  lemma TwoBytes(s: seq<Byte>) returns (c: Scalar)
    requires RuneLength(s) == 2
    ensures Encoded(c) == s[..2]
  {
    var h, z := s[0] as int - 0xC0, s[1] as int - 0x80;
    Digits64(0, 0, h, z);
    c := h * 64 + z;
  }

  lemma ThreeBytes(s: seq<Byte>) returns (c: Scalar)
    requires RuneLength(s) == 3
    ensures Encoded(c) == s[..3]
  {
    var h, y, z := s[0] as int - 0xE0, s[1] as int - 0x80, s[2] as int - 0x80;
    Digits64(0, h, y, z);
    c := (h * 64 + y) * 64 + z;
    assert c / 4096 == h;
  }

  lemma FourBytes(s: seq<Byte>) returns (c: Scalar)
    requires RuneLength(s) == 4
    ensures Encoded(c) == s[..4]
  {
    var h, x, y, z := s[0] as int - 0xF0, s[1] as int - 0x80, s[2] as int - 0x80, s[3] as int - 0x80;
    Digits64(h, x, y, z);
    c := ((h * 64 + x) * 64 + y) * 64 + z;
  }

  /** A character at the start of a text is an encoded scalar. */
  lemma RuneIsEncoded(s: seq<Byte>) returns (c: Scalar)
    requires RuneLength(s) > 0
    ensures Encoded(c) == s[..RuneLength(s)]
  {
    if RuneLength(s) == 1 {
      c := s[0] as int;
    } else {
      hide RuneLength, Encoded;
      if RuneLength(s) == 2 {
        c := TwoBytes(s);
      } else if RuneLength(s) == 3 {
        c := ThreeBytes(s);
      } else {
        c := FourBytes(s);
      }
    }
  }

  lemma {:induction false} EncodedIsValid(cs: seq<Scalar>)
    ensures Valid(EncodedAll(cs))
  {
    hide Encoded, RuneLength;
    if cs != [] {
      EncodedIsValid(cs[1..]);
      var first, rest := Encoded(cs[0]), EncodedAll(cs[1..]);
      EncodedIsRune(cs[0], rest);
      assert (first + rest)[|first|..] == rest;
    }
  }

  lemma {:induction false} ValidIsEncoded(s: seq<Byte>) returns (cs: seq<Scalar>)
    requires Valid(s)
    ensures EncodedAll(cs) == s
    decreases |s|
  {
    hide Encoded, RuneLength;
    cs := [];
    if s != [] {
      var n := RuneLength(s);
      var c := RuneIsEncoded(s);
      var rest := ValidIsEncoded(s[n..]);
      cs := [c] + rest;
      assert cs[1..] == rest;
    }
  }

  /** Valid byte strings are exactly the encodings of sequences of scalar values. */
  lemma ValidIff(s: seq<Byte>)
    ensures Valid(s) <==> exists cs: seq<Scalar> :: EncodedAll(cs) == s
  {
    hide EncodedAll;
    if Valid(s) { var cs := ValidIsEncoded(s); }
    forall cs: seq<Scalar> | EncodedAll(cs) == s ensures Valid(s) { EncodedIsValid(cs); }
  }

  /** A valid string has a valid prefix at most three bytes short of any cut. */
  lemma {:induction false} ValidPrefixNear(s: seq<Byte>, cut: nat) returns (k: nat)
    requires Valid(s) && cut <= |s|
    ensures cut - 3 <= k <= cut && Valid(s[..k])
    decreases |s|
  {
    var n := RuneLength(s);
    if cut == 0 || cut < n {
      k := 0;
    } else {
      var rest := ValidPrefixNear(s[n..], cut - n);
      k := n + rest;
      JoinRune(s, k);
    }
  }

  lemma TakeThenDrop(s: seq<Byte>, n: nat, k: nat)
    requires n <= k <= |s|
    ensures s[..k][n..] == s[n..][..k - n]
  {}

  /** A whole first character before a valid rest is valid. */
  lemma {:induction false} JoinRune(s: seq<Byte>, k: nat)
    requires s != [] && 0 < RuneLength(s) <= k <= |s| && Valid(s[RuneLength(s)..][..k - RuneLength(s)])
    ensures Valid(s[..k])
  {
    var n := RuneLength(s);
    assert RuneLength(s[..k]) == n;
    hide RuneLength;
    TakeThenDrop(s, n, k);
  }

  /** `truncateUTF8`: a string within the limit is returned as it is; a longer one is cut to its longest valid prefix
      within the limit, which for a valid string lies at most three bytes below it. */
  method Truncate(value: seq<Byte>, maxBytes: nat) returns (r: seq<Byte>)
    ensures r <= value
    ensures |value| <= maxBytes ==> r == value
    ensures |value| > maxBytes ==> |r| <= maxBytes && Valid(r)
    ensures |value| > maxBytes ==> forall k :: |r| < k <= maxBytes ==> !Valid(value[..k])
    ensures |value| > maxBytes && Valid(value) ==> |r| >= maxBytes - 3
  {
    if |value| <= maxBytes { return value; }
    hide RuneLength;
    r := value[..maxBytes];
    while !Valid(r)
      invariant r <= value && |r| <= maxBytes
      invariant forall k :: |r| < k <= maxBytes ==> !Valid(value[..k])
      decreases |r|
    {
      assert r == value[..|r|];
      r := r[..|r| - 1];
    }
    if Valid(value) {
      var k := ValidPrefixNear(value, maxBytes);
    }
  }
}
