/** IPv4 blocks (section 3.1 of RFC 4632): the address arithmetic behind Go's `net.IPNet`, and its text form. */
module Network {
  import opened Text

  /** An IPv4 address as one number, most significant octet first. */
  type Address = n: int | 0 <= n < 0x1_0000_0000

  type PrefixLength = n: int | 0 <= n <= 32

  /** A masked block, as `net.ParseCIDR` builds it. */
  datatype Block = Block(base: Address, length: PrefixLength) {
    predicate Valid() { Mask(base, length) == base }

    /** `IPNet.Contains`: equal to the block's base under the block's mask. */
    predicate Contains(a: Address) { Mask(a, length) == Mask(base, length) }
  }

  function Pow2(n: nat): (p: nat)
    ensures p > 0
  {
    if n == 0 then 1 else 2 * Pow2(n - 1)
  }

  lemma MultipleBounds(d: int, m: int)
    requires m > 0
    ensures d >= 1 ==> d * m >= m
    ensures d <= -1 ==> d * m <= -m
  {}

  lemma ModUnique(x: int, m: int, q: int, r: int)
    requires 0 <= r < m && x == q * m + r
    ensures x % m == r
  {
    var d := x / m - q;
    assert d * m == r - x % m;
    MultipleBounds(d, m);
  }

  lemma ModBound(x: nat, m: nat)
    requires m > 0
    ensures 0 <= x % m <= x
  {
    if x < m { ModUnique(x, m, 0, x); }
  }

  /** Clears the bits below the prefix. */
  function Mask(a: Address, length: PrefixLength): Address
  {
    ModBound(a, Pow2(32 - length));
    a - a % Pow2(32 - length)
  }

  /** `networksOverlap`: one block holds the other's base. */
  predicate Overlap(left: Block, right: Block) {
    left.Contains(right.base) || right.Contains(left.base)
  }

  lemma {:induction false} Pow2Sum(m: nat, n: nat)
    ensures Pow2(m + n) == Pow2(m) * Pow2(n)
  {
    if m > 0 { Pow2Sum(m - 1, n); }
  }

  lemma ModMultiple(x: nat, small: nat, k: nat)
    requires small > 0 && k > 0
    ensures small * k > 0
    ensures (x - x % small) % (small * k) == x % (small * k) - x % small
  {
    var big := small * k;
    var q, r := x / big, x % big;
    var rest := r % small;
    ModBound(r, small);
    ModOfRest(x, small, k, q, r);
    assert x - rest == q * big + (r - rest);
    ModUnique(x - rest, big, q, r - rest);
  }

  lemma ModOfRest(x: nat, small: nat, k: nat, q: nat, r: nat)
    requires small > 0 && x == q * (small * k) + r
    ensures x % small == r % small
  {
    var n := r / small;
    assert q * (small * k) == (q * k) * small;
    assert x == (q * k + n) * small + r % small;
    ModUnique(x, small, q * k + n, r % small);
  }

  /** Masking first with a longer prefix changes nothing. */
  lemma MaskTwice(a: Address, short: PrefixLength, long: PrefixLength)
    requires short <= long
    ensures Mask(Mask(a, long), short) == Mask(a, short)
  {
    Pow2Sum(32 - long, long - short);
    assert (32 - long) + (long - short) == 32 - short;
    ModMultiple(a, Pow2(32 - long), Pow2(long - short));
  }

  lemma MaskIdempotent(a: Address, length: PrefixLength)
    ensures Block(Mask(a, length), length).Valid()
  {
    MaskTwice(a, length, length);
  }

  /** A block is the run of addresses from its base on, as many as its prefix leaves free. */
  lemma ContainsIff(b: Block, a: Address)
    requires b.Valid()
    ensures b.Contains(a) <==> b.base <= a < b.base + Pow2(32 - b.length)
  {
    var m := Pow2(32 - b.length);
    hide Pow2;
    assert b.base % m == 0;
    assert b.Contains(a) <==> a - a % m == b.base;
    if b.base <= a < b.base + m {
      DivExact(b.base, m);
      ModUnique(a, m, b.base / m, a - b.base);
    }
  }

  lemma DivExact(x: int, m: int)
    requires m > 0 && x % m == 0
    ensures x == x / m * m
  {}

  lemma SharedAddressOverlaps(left: Block, right: Block, a: Address)
    requires left.Valid() && right.Valid()
    requires left.Contains(a) && right.Contains(a)
    ensures Overlap(left, right)
  {
    if left.length <= right.length {
      MaskTwice(a, left.length, right.length);
    } else {
      MaskTwice(a, right.length, left.length);
    }
  }

  /** The overlap test is true exactly when some address lies in both blocks. */
  lemma OverlapIffShared(left: Block, right: Block)
    requires left.Valid() && right.Valid()
    ensures Overlap(left, right) <==> exists a: Address :: left.Contains(a) && right.Contains(a)
  {
    if Overlap(left, right) {
      var a := if left.Contains(right.base) then right.base else left.base;
      assert left.Contains(a) && right.Contains(a);
    }
    forall a: Address | left.Contains(a) && right.Contains(a)
      ensures Overlap(left, right)
    {
      SharedAddressOverlaps(left, right, a);
    }
  }

  // ---- text ---------------------------------------------------------------

  function Octet(a: Address, i: int): (o: int)
    requires 0 <= i < 4
    ensures 0 <= o < 256
  {
    if i == 0 then a / 0x100_0000
    else if i == 1 then a / 0x1_0000 % 256
    else if i == 2 then a / 256 % 256
    else a % 256
  }

  function FromOctets(o: seq<nat>): Address
    requires |o| == 4 && forall i :: 0 <= i < 4 ==> o[i] < 256
  {
    ((o[0] * 256 + o[1]) * 256 + o[2]) * 256 + o[3]
  }

  function Dotted(a: string, b: string, c: string, d: string): string {
    a + ['.'] + (b + ['.'] + (c + ['.'] + d))
  }

  /** `IP.String` on an IPv4 address. */
  function ShowAddress(a: Address): string {
    Dotted(Decimal(Octet(a, 0)), Decimal(Octet(a, 1)), Decimal(Octet(a, 2)), Decimal(Octet(a, 3)))
  }

  /** `IPNet.String`. */
  function ShowBlock(b: Block): string {
    ShowAddress(b.base) + "/" + Decimal(b.length)
  }

  /** One octet as `netip` reads it: at most three digits, no leading zero, at most 255. */
  predicate OctetText(s: string) {
    && 1 <= |s| <= 3 && Digits(s)
    && (|s| > 1 ==> s[0] != '0')
    && DigitsValue(s) < 256
  }

  function ParseAddress(s: string): Option<Address> {
    var parts := SplitOn(s, '.');
    if |parts| == 4 && forall i :: 0 <= i < 4 ==> OctetText(parts[i])
    then Some(FromOctets([DigitsValue(parts[0]), DigitsValue(parts[1]), DigitsValue(parts[2]), DigitsValue(parts[3])]))
    else None
  }

  /** `net.ParseCIDR`: an address, a slash and a decimal prefix length; the host bits are masked away. */
  function ParseBlock(s: string): (b: Option<Block>)
    ensures b.Some? ==> b.value.Valid()
  {
    var parts := SplitOn(s, '/');
    if |parts| != 2 || parts[1] == "" || !Digits(parts[1]) || DigitsValue(parts[1]) > 32 then None
    else
      match ParseAddress(parts[0])
      case None => None
      case Some(a) =>
        var length := DigitsValue(parts[1]);
        MaskIdempotent(a, length);
        Some(Block(Mask(a, length), length))
  }

  lemma DecimalIsOctet(n: nat)
    requires n < 256
    ensures OctetText(Decimal(n)) && DigitsValue(Decimal(n)) == n
    ensures '.' !in Decimal(n) && '/' !in Decimal(n)
  {
    DecimalValue(n);
    DecimalLead(n);
  }

  lemma OctetsOf(a: Address)
    ensures FromOctets([Octet(a, 0), Octet(a, 1), Octet(a, 2), Octet(a, 3)]) == a
  {
    assert a / 0x100_0000 == a / 256 / 256 / 256;
    assert a / 0x1_0000 == a / 256 / 256;
  }

  lemma SplitDotted(a: string, b: string, c: string, d: string)
    requires '.' !in a && '.' !in b && '.' !in c && '.' !in d
    ensures SplitOn(Dotted(a, b, c, d), '.') == [a, b, c, d]
  {
    SplitFirst(a, b + ['.'] + (c + ['.'] + d), '.');
    SplitFirst(b, c + ['.'] + d, '.');
    SplitFirst(c, d, '.');
    SplitWhole(d, '.');
  }

  lemma AddressRoundTrip(a: Address)
    ensures ParseAddress(ShowAddress(a)) == Some(a)
  {
    DecimalIsOctet(Octet(a, 0));
    DecimalIsOctet(Octet(a, 1));
    DecimalIsOctet(Octet(a, 2));
    DecimalIsOctet(Octet(a, 3));
    SplitDotted(Decimal(Octet(a, 0)), Decimal(Octet(a, 1)), Decimal(Octet(a, 2)), Decimal(Octet(a, 3)));
    OctetsOf(a);
  }

  /** A numeral without leading zeros is the one that is printed for its value. */
  lemma {:induction false} NumeralIsDecimal(s: string)
    requires s != "" && Digits(s) && (|s| > 1 ==> s[0] != '0')
    ensures Decimal(DigitsValue(s)) == s
    ensures DigitsValue(s) == 0 ==> s == "0"
    decreases |s|
  {
    var n := |s| - 1;
    var d := s[n] as int - '0' as int;
    if n == 0 {
      assert s[..0] == "" && s == [s[0]];
    } else {
      NumeralIsDecimal(s[..n]);
      assert DigitsValue(s[..n]) > 0;
      assert s == s[..n] + [s[n]];
    }
  }

  lemma OctetShown(s: string)
    requires OctetText(s)
    ensures DigitsValue(s) < 256 && Decimal(DigitsValue(s)) == s
  {
    NumeralIsDecimal(s);
  }

  lemma DottedShown(a: string, b: string, c: string, d: string)
    requires OctetText(a) && OctetText(b) && OctetText(c) && OctetText(d)
    ensures ShowAddress(FromOctets([DigitsValue(a), DigitsValue(b), DigitsValue(c), DigitsValue(d)])) == Dotted(a, b,
        c, d)
  {
    OctetShown(a);
    OctetShown(b);
    OctetShown(c);
    OctetShown(d);
    hide OctetText, DigitsValue, Decimal, Digits, FromOctets, Octet;
    OctetsBack(DigitsValue(a), DigitsValue(b), DigitsValue(c), DigitsValue(d));
  }

  /** The only text that is read as an address is the one that is printed for it. */
  lemma AddressTextUnique(s: string, a: Address)
    ensures ParseAddress(s) == Some(a) <==> s == ShowAddress(a)
  {
    AddressRoundTrip(a);
    if ParseAddress(s) == Some(a) {
      var p := SplitOn(s, '.');
      JoinSplit(s, '.');
      hide SplitOn, DigitsValue, OctetText, ShowAddress, FromOctets, JoinWith, Dotted;
      DottedShown(p[0], p[1], p[2], p[3]);
      assert p == [p[0], p[1], p[2], p[3]];
      JoinDotted(p[0], p[1], p[2], p[3]);
    }
  }

  lemma OctetsBack(w: nat, x: nat, y: nat, z: nat)
    requires w < 256 && x < 256 && y < 256 && z < 256
    ensures var a := FromOctets([w, x, y, z]);
      Octet(a, 0) == w && Octet(a, 1) == x && Octet(a, 2) == y && Octet(a, 3) == z
  {}

  lemma JoinDotted(a: string, b: string, c: string, d: string)
    ensures JoinWith([a, b, c, d], '.') == Dotted(a, b, c, d)
  {
    assert [a, b, c, d][1..] == [b, c, d] && [b, c, d][1..] == [c, d] && [c, d][1..] == [d];
    assert JoinWith([d], '.') == d;
    assert JoinWith([c, d], '.') == c + ['.'] + d;
    assert JoinWith([b, c, d], '.') == b + ['.'] + (c + ['.'] + d);
  }

  /** The printed form holds digits, dots and nothing else. */
  lemma ShowAddressChars(a: Address)
    ensures ShowAddress(a) != ""
    ensures forall i :: 0 <= i < |ShowAddress(a)| ==> IsDigit(ShowAddress(a)[i]) || ShowAddress(a)[i] == '.'
  {}

  /** A printed block starts and ends with a digit and holds no blank, quote or sign. */
  lemma ShowBlockChars(b: Block)
    ensures var s := ShowBlock(b);
      && s != "" && IsDigit(s[0]) && IsDigit(s[|s| - 1])
      && forall i :: 0 <= i < |s| ==> IsDigit(s[i]) || s[i] == '.' || s[i] == '/'
  {
    hide Decimal, Octet;
    var head, tail := ShowAddress(b.base), Decimal(b.length);
    ShowAddressChars(b.base);
    var s := ShowBlock(b);
    assert s == head + "/" + tail;
    assert s[|s| - 1] == tail[|tail| - 1];
    assert head[0] == Decimal(Octet(b.base, 0))[0];
  }

  /** Printing a block and parsing it gives the block back. */
  lemma BlockRoundTrip(b: Block)
    requires b.Valid()
    ensures ParseBlock(ShowBlock(b)) == Some(b)
  {
    var head, tail := ShowAddress(b.base), Decimal(b.length);
    ShowAddressChars(b.base);
    assert '/' !in head;
    DecimalIsOctet(b.length);
    SplitFirst(head, tail, '/');
    SplitWhole(tail, '/');
    assert head + ['/'] + tail == ShowBlock(b);
    AddressRoundTrip(b.base);
  }

  lemma {:induction false} CharInPart(s: string, sep: char, k: nat) returns (i: nat)
    requires k < |s| && s[k] != sep
    ensures i < |SplitOn(s, sep)| && s[k] in SplitOn(s, sep)[i]
    decreases |s|
  {
    if k == 0 {
      i := 0;
    } else {
      var j := CharInPart(s[1..], sep, k - 1);
      i := if s[0] == sep then j + 1 else j;
    }
  }

  /** A dotted address holds digits and dots only. */
  lemma OddIsNotDotted(s: string, k: nat)
    requires k < |s| && s[k] != '.' && !IsDigit(s[k])
    ensures ParseAddress(s).None?
  {
    var i := CharInPart(s, '.', k);
    hide SplitOn;
    var part := SplitOn(s, '.')[i];
    assert !Digits(part);
  }

  const WHOLE := Block(0, 0)

  lemma Pow2Word()
    ensures Pow2(32) == 0x1_0000_0000
  {
    assert Pow2(2) == 4;
    Pow2Sum(2, 2);
    Pow2Sum(4, 4);
    Pow2Sum(8, 8);
    Pow2Sum(16, 16);
  }

  lemma WholeContains(a: Address)
    ensures WHOLE.Valid() && WHOLE.Contains(a)
  {
    Pow2Word();
    hide Pow2;
    ModUnique(a, Pow2(32), 0, a);
    ModUnique(0, Pow2(32), 0, 0);
  }

  /** The source that `normalizeFirewallRule` fills in is the whole address space. */
  lemma DefaultSource(text: string)
    requires text == "0.0.0.0/0"
    ensures ShowBlock(WHOLE) == text
    ensures ParseBlock(text) == Some(WHOLE)
  {
    hide ParseBlock;
    DefaultText();
    WholeContains(0);
    BlockRoundTrip(WHOLE);
  }

  lemma DefaultText()
    ensures ShowBlock(WHOLE) == "0.0.0.0/0"
  {
    assert Decimal(0) == "0";
    assert Dotted("0", "0", "0", "0") == "0.0.0.0";
  }
}
