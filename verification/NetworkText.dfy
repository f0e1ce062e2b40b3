/** What Go reads as a network where the agent wants IPv4: dotted text, and IPv6 text (section 2.2 of RFC 4291) that
    holds a mapped IPv4 address. */
module NetworkText {
  import opened Text
  import opened Network

  // ---- IPv6 text ----------------------------------------------------------

  type Group = n: int | 0 <= n < 0x1_0000

  function HexDigit(c: char): (n: int)
    requires IsHex(c)
    ensures 0 <= n < 16
  {
    if c <= '9' then c as int - '0' as int
    else if c <= 'F' then c as int - 'A' as int + 10
    else c as int - 'a' as int + 10
  }

  function HexPrefix(s: string): (n: nat)
    ensures n <= |s| && forall i :: 0 <= i < n ==> IsHex(s[i])
  {
    if s != "" && IsHex(s[0]) then 1 + HexPrefix(s[1..]) else 0
  }

  function HexValue(s: string): nat
    requires forall i :: 0 <= i < |s| ==> IsHex(s[i])
  {
    if s == "" then 0 else 16 * HexValue(s[..|s| - 1]) + HexDigit(s[|s| - 1])
  }

  lemma HexBound(s: string)
    requires |s| <= 4 && forall i :: 0 <= i < |s| ==> IsHex(s[i])
    ensures HexValue(s) < 0x1_0000
    ensures |s| <= 3 ==> HexValue(s) < 0x1000
    ensures |s| <= 2 ==> HexValue(s) < 0x100
    ensures |s| <= 1 ==> HexValue(s) < 0x10
  {
    if s != "" { HexBound(s[..|s| - 1]); }
  }

  /** The groups read so far, and how many stand before the "::". */
  datatype Parts = Parts(groups: seq<Group>, gap: Option<nat>)

  /** The loop of `netip.parseIPv6`: hexadecimal groups between colons, at the end perhaps a dotted address. */
  function ParseGroups(s: string, p: Parts): Option<Parts>
    decreases |s|
  {
    if |p.groups| >= 8 then if s == "" then Some(p) else None
    else
      var n := HexPrefix(s);
      if n == 0 || n > 4 then None
      else if n < |s| && s[n] == '.' then
        if (p.gap.None? && |p.groups| != 6) || |p.groups| > 6 then None
        else
          match ParseAddress(s)
          case None => None
          case Some(a) => Some(p.(groups := p.groups + [a / 0x1_0000, a % 0x1_0000]))
      else
        HexBound(s[..n]);
        var q := p.(groups := p.groups + [HexValue(s[..n])]);
        if n == |s| then Some(q)
        else if s[n] != ':' || n + 1 == |s| then None
        else if s[n + 1] != ':' then ParseGroups(s[n + 1..], q)
        else if q.gap.Some? then None
        else if n + 2 == |s| then Some(q.(gap := Some(|q.groups|)))
        else ParseGroups(s[n + 2..], q.(gap := Some(|q.groups|)))
  }

  function Zeros(n: nat): seq<Group> { seq(n, _ => 0) }

  /** Fills the gap; there must be one exactly when groups are missing. */
  function Expand(p: Parts): (g: Option<seq<Group>>)
    ensures g.Some? ==> |g.value| == 8
  {
    if p.gap.None? then if |p.groups| == 8 then Some(p.groups) else None
    else if |p.groups| < 8 && p.gap.value <= |p.groups| then
      Some(p.groups[..p.gap.value] + Zeros(8 - |p.groups|) + p.groups[p.gap.value..])
    else None
  }

  /** IPv6 text without a zone. */
  function ParseSix(s: string): (g: Option<seq<Group>>)
    ensures g.Some? ==> |g.value| == 8
  {
    if s == "::" then Some(Zeros(8))
    else
      var read := if "::" <= s then ParseGroups(s[2..], Parts([], Some(0))) else ParseGroups(s, Parts([], None));
      if read.Some? then Expand(read.value) else None
  }

  /** `IP.To4` on 16 bytes: the address behind the mapped prefix. */
  function Mapped(g: seq<Group>): Option<Address>
    requires |g| == 8
  {
    var high, low: int := g[6], g[7];
    if g[..6] == Zeros(5) + [0xffff] then Some(high * 0x1_0000 + low) else None
  }

  function ParseMapped(s: string): Option<Address> {
    var g := ParseSix(s);
    if g.Some? then Mapped(g.value) else None
  }

  // ---- what text denotes --------------------------------------------------

  /** An IPv4 block, or a mapped address under a prefix so short that the result is no IPv4 block any more. */
  datatype Denotation = Four(block: Block) | Short(length: nat)

  /** `net.ParseCIDR` on text whose address part is an IPv4 address in either form. */
  function ParseNetwork(s: string): Option<Denotation> {
    var parts := SplitOn(s, '/');
    if ParseBlock(s).Some? then Some(Four(ParseBlock(s).value))
    else if |parts| != 2 || parts[1] == "" || !Digits(parts[1]) || DigitsValue(parts[1]) > 128 then None
    else
      var n := DigitsValue(parts[1]);
      match ParseMapped(parts[0])
      case None => None
      case Some(a) => Some(if n >= 96 then Four(Block(Mask(a, n - 96), n - 96)) else Short(n))
  }

  /** `net.ParseIP` followed by `To4`. */
  function ParseFour(s: string): Option<Address> {
    match ParseAddress(s)
    case Some(a) => Some(a)
    case None => ParseMapped(s)
  }

  /** What a piece of configuration text denotes. */
  function Denotes(raw: string): Option<Denotation> {
    match ParseFour(raw)
    case Some(a) => Some(Four(Block(a, 32)))
    case None => ParseNetwork(raw)
  }

  function HexLetter(n: nat): char
    requires n < 16
  {
    if n < 10 then '0' + n as char else 'a' + (n - 10) as char
  }

  /** Four hexadecimal digits. */
  function HexText(n: Group): string {
    [HexLetter(n / 4096), HexLetter(n / 256 % 16), HexLetter(n / 16 % 16), HexLetter(n % 16)]
  }

  /** The text of ::ffff:0:0 under a prefix below 96; between 81 and 95 part of the sixth group is left. */
  function ShortText(n: nat): string
    requires n < 96
  {
    Pow2Small(if n <= 80 then 0 else 96 - n);
    (if n <= 80 then "::" else "::" + HexText(0x1_0000 - Pow2(96 - n)) + ":0:0") + "/" + Decimal(n)
  }

  lemma {:induction false} Pow2Small(n: nat)
    requires n <= 15
    ensures Pow2(n) <= 0x8000
  {
    Pow2Sum(n, 15 - n);
    assert Pow2(1) == 2 && Pow2(2) == 4;
    Pow2Sum(2, 2);
    Pow2Sum(4, 4);
    Pow2Sum(8, 4);
    Pow2Sum(12, 2);
    Pow2Sum(14, 1);
    Product(Pow2(n), Pow2(15 - n));
  }

  lemma Product(a: nat, b: nat)
    requires b > 0
    ensures a <= a * b
  {}

  /** `IPNet.String`. */
  function ShowNetwork(d: Denotation): string
    requires d.Short? ==> d.length < 96
  {
    match d
    case Four(b) => ShowBlock(b)
    case Short(n) => ShortText(n)
  }

  /** `normalizeIPv4Network`: a bare address becomes a /32, a network is printed with its host bits cleared. */
  function NormalizeNetwork(raw: string): Option<string> {
    match ParseFour(raw)
    case Some(a) => Some(ShowAddress(a) + "/" + Decimal(32))
    case None =>
      match ParseNetwork(raw)
      case Some(d) => Some(ShowNetwork(d))
      case None => None
  }

  // ---- what normalising keeps ---------------------------------------------

  lemma {:induction false} SlashStopsGroups(s: string, p: Parts, k: nat)
    requires k < |s| && s[k] == '/'
    ensures ParseGroups(s, p).None?
    decreases |s|
  {
    OddIsNotDotted(s, k);
    hide ParseAddress;
    var n := HexPrefix(s);
    if |p.groups| < 8 && 0 < n <= 4 && s[n] == ':' && n + 1 < |s| {
      HexBound(s[..n]);
      var q := p.(groups := p.groups + [HexValue(s[..n])]);
      if s[n + 1] != ':' {
        SlashStopsGroups(s[n + 1..], q, k - n - 1);
      } else if q.gap.None? && n + 2 < |s| {
        SlashStopsGroups(s[n + 2..], q.(gap := Some(|q.groups|)), k - n - 2);
      }
    }
  }

  /** Text with a slash is no IPv6 address. */
  lemma SlashIsNotMapped(s: string, k: nat)
    requires k < |s| && s[k] == '/'
    ensures ParseMapped(s).None?
  {
    hide ParseGroups;
    if "::" <= s {
      assert s != "::";
      SlashStopsGroups(s[2..], Parts([], Some(0)), k - 2);
    } else {
      SlashStopsGroups(s, Parts([], None), k);
    }
  }

  /** The short form is never read as an IPv4 block again. */
  lemma ShortIsNotFour(n: nat)
    requires n < 96
    ensures ParseBlock(ShortText(n)).None?
    ensures ParseNetwork(ShortText(n)).Some? ==> ParseNetwork(ShortText(n)).value.Short?
  {
    var text, tail := ShortText(n), Decimal(n);
    var head := text[..|text| - |tail| - 1];
    DecimalValue(n);
    hide HexLetter, Decimal, ParseMapped, ParseAddress;
    assert '/' !in head && head[0] == ':' by { ShortHead(n); }
    assert '/' !in tail;
    assert text == head + ['/'] + tail;
    SplitFirst(head, tail, '/');
    SplitWhole(tail, '/');
    hide SplitOn;
    OddIsNotDotted(head, 0);
  }

  predicate ColonHex(s: string) { forall i :: 0 <= i < |s| ==> s[i] == ':' || IsHex(s[i]) }

  lemma ColonHexJoin(a: string, b: string, c: string)
    requires ColonHex(a) && ColonHex(b) && ColonHex(c)
    ensures ColonHex(a + b + c)
  {}

  lemma ColonHexPieces()
    ensures ColonHex("::") && ColonHex(":0:0")
  {}

  lemma ShortHead(n: nat)
    requires n < 96
    ensures var text := ShortText(n);
      var head := text[..|text| - |Decimal(n)| - 1];
      text == head + "/" + Decimal(n) && head != "" && head[0] == ':' && ColonHex(head)
  {
    Pow2Small(if n <= 80 then 0 else 96 - n);
    var head := if n <= 80 then "::" else "::" + HexText(0x1_0000 - Pow2(96 - n)) + ":0:0";
    if n > 80 { HexTextIsHex(0x1_0000 - Pow2(96 - n)); }
    assert ShortText(n) == head + "/" + Decimal(n);
    ColonHexPieces();
    hide Decimal, ShortText, Pow2, HexText, IsHex;
    assert ShortText(n)[..|head|] == head;
    if n > 80 { ColonHexJoin("::", HexText(0x1_0000 - Pow2(96 - n)), ":0:0"); }
  }

  lemma HexTextIsHex(n: Group)
    ensures |HexText(n)| == 4 && forall i :: 0 <= i < 4 ==> IsHex(HexText(n)[i])
  {}

  /** Normalising fails exactly on text that denotes nothing and keeps the denotation. An IPv4 block is read back from
      the result and stays as it is; the short form is not, and the guard's constructor drops it. */
  lemma NormalizeMeaning(raw: string)
    ensures NormalizeNetwork(raw).None? <==> Denotes(raw).None?
    ensures Denotes(raw).Some? && Denotes(raw).value.Short? ==> Denotes(raw).value.length < 96
    ensures NormalizeNetwork(raw).Some? ==>
      var text, d := NormalizeNetwork(raw).value, Denotes(raw).value;
      && text == ShowNetwork(d)
      && (d.Four? ==> d.block.Valid() && ParseBlock(text) == Some(d.block) && NormalizeNetwork(text) == Some(text))
      && (Kept(text) == if d.Four? then Some(d.block) else None)
  {
    if NormalizeNetwork(raw).Some? {
      var d := Denotes(raw).value;
      DenotesValid(raw);
      if d.Four? {
        FourIsStable(d.block);
      } else {
        ShortIsNotFour(d.length);
      }
    }
  }

  lemma DenotesValid(raw: string)
    requires Denotes(raw).Some?
    ensures Denotes(raw).value.Four? ==> Denotes(raw).value.block.Valid()
  {
    hide ParseMapped, SplitOn, ParseAddress, Mask, ParseBlock;
    if ParseFour(raw).Some? {
      assert Mask(ParseFour(raw).value, 32) == ParseFour(raw).value by { FullMask(ParseFour(raw).value); }
    } else if ParseBlock(raw).None? {
      var n := DigitsValue(SplitOn(raw, '/')[1]);
      if n >= 96 { MaskIdempotent(ParseMapped(SplitOn(raw, '/')[0]).value, n - 96); }
    }
  }

  lemma FullMask(a: Address)
    ensures Mask(a, 32) == a
  {
    assert Pow2(0) == 1;
  }

  lemma FourIsStable(b: Block)
    requires b.Valid()
    ensures ParseBlock(ShowBlock(b)) == Some(b) && NormalizeNetwork(ShowBlock(b)) == Some(ShowBlock(b))
  {
    BlockRoundTrip(b);
    OddIsNotDotted(ShowBlock(b), |ShowAddress(b.base)|);
    SlashIsNotMapped(ShowBlock(b), |ShowAddress(b.base)|);
    hide ParseBlock, ParseAddress, ParseMapped, ShowBlock;
  }

  lemma {:induction false} HexPrefixOf(head: string, rest: string)
    requires forall i :: 0 <= i < |head| ==> IsHex(head[i])
    requires rest == "" || !IsHex(rest[0])
    ensures HexPrefix(head + rest) == |head|
  {
    if head == "" {
      assert head + rest == rest;
    } else {
      HexPrefixOf(head[1..], rest);
      assert (head + rest)[1..] == head[1..] + rest;
    }
  }

  // ---- the guard's constructor --------------------------------------------

  /** What the constructor makes of a normalised text; `None` when it leaves the entry out without an error. */
  function Kept(text: string): Option<Block> {
    match ParseNetwork(text)
    case Some(Four(b)) => Some(b)
    case _ => None
  }

  /** The mapped form of an address under a prefix. */
  function MappedText(a: Address, n: nat): string { "::ffff:" + ShowAddress(a) + "/" + Decimal(n) }

  /** The last step of the loop: a dotted address where two groups are missing. */
  lemma DottedTail(dotted: string, first: string, a: Address, p: Parts)
    requires ParseAddress(dotted) == Some(a) && p.gap.Some? && |p.groups| <= 6
    requires 1 <= |first| <= 4 && first < dotted && dotted[|first|] == '.'
    requires forall i :: 0 <= i < |first| ==> IsHex(first[i])
    ensures ParseGroups(dotted, p) == Some(p.(groups := p.groups + [a / 0x1_0000, a % 0x1_0000]))
  {
    hide ParseAddress;
    HexPrefixOf(first, dotted[|first|..]);
    assert first + dotted[|first|..] == dotted;
  }

  /** One group, then a colon and more. */
  lemma GroupStep(word: string, rest: string, p: Parts)
    requires 1 <= |word| <= 4 && (forall i :: 0 <= i < |word| ==> IsHex(word[i])) && |p.groups| < 8
    requires rest != "" && rest[0] != ':'
    ensures HexValue(word) < 0x1_0000
    ensures ParseGroups(word + ":" + rest, p) == ParseGroups(rest, p.(groups := p.groups + [HexValue(word)]))
  {
    hide ParseAddress, HexValue;
    HexBound(word);
    var s := word + ":" + rest;
    HexPrefixOf(word, ":" + rest);
    assert word + (":" + rest) == s;
    assert s[..|word|] == word && s[|word| + 1..] == rest && s[|word|] == ':' && s[|word| + 1] == rest[0];
  }

  lemma AddressStart(a: Address) returns (first: string)
    ensures var dotted := ShowAddress(a);
      && 1 <= |first| <= 3 && first < dotted && dotted[|first|] == '.' && dotted[0] != ':'
      && forall i :: 0 <= i < |first| ==> IsHex(first[i])
  {
    first := Decimal(Octet(a, 0));
    DecimalIsOctet(Octet(a, 0));
  }

  lemma MappedBody(a: Address)
    ensures ParseGroups("ffff" + ":" + ShowAddress(a), Parts([], Some(0))) ==
            Some(Parts([0xffff, a / 0x1_0000, a % 0x1_0000], Some(0)))
  {
    var first := AddressStart(a);
    AddressRoundTrip(a);
    FourFs();
    hide ShowAddress, ParseAddress, ParseGroups;
    var head: seq<Group> := [0xffff];
    DottedTail(ShowAddress(a), first, a, Parts(head, Some(0)));
    GroupStep("ffff", ShowAddress(a), Parts([], Some(0)));
    hide HexValue;
    assert [] + head == head;
    var high: Group, low: Group := a / 0x1_0000, a % 0x1_0000;
    assert head + [high, low] == [0xffff, high, low];
  }

  lemma MappedParses(a: Address)
    ensures ParseMapped("::ffff:" + ShowAddress(a)) == Some(a)
  {
    MappedBody(a);
    MappedGroups(a);
    hide ShowAddress, ParseGroups, Expand, Mapped;
    var s := "::ffff:" + ShowAddress(a);
    assert s[2..] == "ffff" + ":" + ShowAddress(a);
    assert |s| > 2;
  }

  lemma FourFs()
    ensures HexValue("ffff") == 0xffff
  {
    assert "ffff"[..3] == "fff" && "fff"[..2] == "ff" && "ff"[..1] == "f" && "f"[..0] == "";
    assert HexValue("f") == 15;
    assert HexValue("ff") == 255;
    assert HexValue("fff") == 4095;
  }

  lemma MappedGroups(a: Address)
    ensures Expand(Parts([0xffff, a / 0x1_0000, a % 0x1_0000], Some(0))) ==
            Some(Zeros(5) + [0xffff, a / 0x1_0000, a % 0x1_0000])
    ensures Mapped(Zeros(5) + [0xffff, a / 0x1_0000, a % 0x1_0000]) == Some(a)
  {
    var g: seq<Group> := [0xffff, a / 0x1_0000, a % 0x1_0000];
    assert g[..0] + Zeros(5) + g[0..] == Zeros(5) + g;
    assert (Zeros(5) + g)[..6] == Zeros(5) + [0xffff];
  }

  lemma MappedNetwork(a: Address, n: nat)
    requires n <= 128
    ensures ParseFour(MappedText(a, n)).None?
    ensures ParseNetwork(MappedText(a, n)) == Some(if n >= 96 then Four(Block(Mask(a, n - 96), n - 96)) else Short(n))
  {
    var head, tail, text := "::ffff:" + ShowAddress(a), Decimal(n), MappedText(a, n);
    ShowAddressChars(a);
    DecimalValue(n);
    MappedParses(a);
    hide Decimal, ShowAddress, ParseMapped, ParseAddress, Mask;
    assert head[0] == ':' && '/' !in head && '/' !in tail;
    assert text == head + ['/'] + tail && text[0] == ':';
    SplitFirst(head, tail, '/');
    SplitWhole(tail, '/');
    hide SplitOn;
    OddIsNotDotted(text, 0);
    OddIsNotDotted(head, 0);
    SlashIsNotMapped(text, |head|);
  }

  /** Every mapped network is accepted as configuration. The constructor keeps it exactly from a prefix of 96 on, and
      then as the IPv4 block it stands for; below, the configured entry protects nothing. */
  lemma MappedEntry(a: Address, n: nat)
    requires n <= 128
    ensures Denotes(MappedText(a, n)) == Some(if n >= 96 then Four(Block(Mask(a, n - 96), n - 96)) else Short(n))
    ensures NormalizeNetwork(MappedText(a, n)).Some?
    ensures Kept(NormalizeNetwork(MappedText(a, n)).value).Some? <==> n >= 96
  {
    MappedNetwork(a, n);
    NormalizeMeaning(MappedText(a, n));
    hide ParseFour, ParseNetwork, MappedText, NormalizeNetwork, Kept, Mask;
  }

  lemma KeptIsValid(text: string)
    requires Kept(text).Some?
    ensures Kept(text).value.Valid()
  {
    hide ParseMapped, SplitOn, ParseAddress, Mask, ParseBlock;
    if ParseBlock(text).None? {
      var n := DigitsValue(SplitOn(text, '/')[1]);
      MaskIdempotent(ParseMapped(SplitOn(text, '/')[0]).value, n - 96);
    }
  }

  // ---- every written form of an IPv6 address ------------------------------

  /** One group as it is written. */
  predicate Word(s: string) { 1 <= |s| <= 4 && forall i :: 0 <= i < |s| ==> IsHex(s[i]) }

  predicate Words(ws: seq<string>) { forall i :: 0 <= i < |ws| ==> Word(ws[i]) }

  function GroupOf(w: string): Group
    requires Word(w)
  {
    HexBound(w);
    HexValue(w)
  }

  function Values(ws: seq<string>): (g: seq<Group>)
    requires Words(ws)
    ensures |g| == |ws| && forall i :: 0 <= i < |ws| ==> g[i] == GroupOf(ws[i])
  {
    if ws == [] then [] else [GroupOf(ws[0])] + Values(ws[1..])
  }

  function Colons(ws: seq<string>): string {
    if ws == [] then "" else if |ws| == 1 then ws[0] else ws[0] + ":" + Colons(ws[1..])
  }

  lemma ColonsStart(ws: seq<string>)
    requires ws != [] && Words(ws)
    ensures Colons(ws) != "" && IsHex(Colons(ws)[0])
  {
    assert Word(ws[0]);
  }

  lemma LastWord(w: string, p: Parts)
    requires Word(w) && |p.groups| < 8
    ensures HexValue(w) < 0x1_0000 && ParseGroups(w, p) == Some(p.(groups := p.groups + [HexValue(w)]))
  {
    HexBound(w);
    HexPrefixOf(w, "");
    assert w + "" == w && w[..|w|] == w;
    hide HexValue, ParseAddress;
  }

  /** A word, the gap, and more words. */
  lemma GapStep(w: string, rest: string, p: Parts)
    requires Word(w) && |p.groups| < 8 && p.gap.None?
    ensures HexValue(w) < 0x1_0000
    ensures var q := Parts(p.groups + [HexValue(w)], Some(|p.groups| + 1));
      ParseGroups(w + "::" + rest, p) == if rest == "" then Some(q) else ParseGroups(rest, q)
  {
    HexBound(w);
    var s := w + "::" + rest;
    HexPrefixOf(w, "::" + rest);
    assert w + ("::" + rest) == s;
    assert s[..|w|] == w && s[|w|] == ':' && s[|w| + 1] == ':' && s[|w| + 2..] == rest;
    hide HexValue, ParseAddress;
  }

  lemma Regroup(a: seq<Group>, x: Group, b: seq<Group>)
    ensures a + [x] + b == a + ([x] + b)
  {}

  lemma {:induction false} ReadWords(ws: seq<string>, p: Parts)
    requires ws != [] && Words(ws) && |p.groups| + |ws| <= 8
    ensures ParseGroups(Colons(ws), p) == Some(p.(groups := p.groups + Values(ws)))
    decreases |ws|
  {
    assert Word(ws[0]) && Words(ws[1..]);
    var first := GroupOf(ws[0]);
    hide ParseGroups, HexValue;
    if |ws| == 1 {
      LastWord(ws[0], p);
      assert Values(ws) == [first];
    } else {
      ColonsStart(ws[1..]);
      GroupStep(ws[0], Colons(ws[1..]), p);
      ReadWords(ws[1..], p.(groups := p.groups + [first]));
      Regroup(p.groups, first, Values(ws[1..]));
    }
  }

  /** Groups with more behind them, on both sides of the gap. */
  function WithGap(p: Parts, l: seq<Group>, r: seq<Group>): Parts { Parts(p.groups + l + r, Some(|p.groups| + |l|)) }

  function WithGroup(p: Parts, x: Group): Parts { p.(groups := p.groups + [x]) }

  lemma WithGapCons(p: Parts, x: Group, l: seq<Group>, r: seq<Group>)
    ensures WithGap(WithGroup(p, x), l, r) == WithGap(p, [x] + l, r)
  {
    Regroup(p.groups, x, l);
  }

  lemma WithGapNone(p: Parts, x: Group)
    ensures WithGap(p, [x], []) == Parts(p.groups + [x], Some(|p.groups| + 1))
  {}

  lemma WithGapMore(p: Parts, x: Group, r: seq<Group>)
    ensures var q := Parts(p.groups + [x], Some(|p.groups| + 1)); WithGap(p, [x], r) == q.(groups := q.groups + r)
  {}

  /** The gap behind one last word. */
  lemma ReadLastGap(w: string, right: seq<string>, p: Parts)
    requires Word(w) && Words(right) && p.gap.None? && |p.groups| + 1 + |right| <= 7
    ensures ParseGroups(w + "::" + Colons(right), p) == Some(WithGap(p, [GroupOf(w)], Values(right)))
  {
    GapStep(w, Colons(right), p);
    var x := GroupOf(w);
    assert x == HexValue(w);
    assert right == [] ==> Colons(right) == "" && Values(right) == [];
    if right != [] { ColonsStart(right); }
    hide ParseGroups, HexValue, GroupOf, Colons, Values, WithGap, Word, Words;
    WithGapNone(p, x);
    WithGapMore(p, x, Values(right));
    if right != [] { ReadWords(right, Parts(p.groups + [x], Some(|p.groups| + 1))); }
  }

  lemma GroupFurther(w: string, more: string, p: Parts)
    requires Word(w) && |p.groups| < 8 && more != "" && more[0] != ':'
    ensures ParseGroups(w + ":" + more, p) == ParseGroups(more, WithGroup(p, GroupOf(w)))
  {
    GroupStep(w, more, p);
    hide ParseGroups, HexValue;
  }

  lemma GapText(left: seq<string>, right: string)
    requires |left| > 1
    ensures Colons(left) + "::" + right == left[0] + ":" + (Colons(left[1..]) + "::" + right)
  {}

  lemma GapFurther(w: string, more: string, p: Parts, l: seq<Group>, r: seq<Group>)
    requires Word(w) && |p.groups| < 8 && more != "" && more[0] != ':'
    requires ParseGroups(more, WithGroup(p, GroupOf(w))) == Some(WithGap(WithGroup(p, GroupOf(w)), l, r))
    ensures ParseGroups(w + ":" + more, p) == Some(WithGap(p, [GroupOf(w)] + l, r))
  {
    hide ParseGroups, GroupOf, Word, WithGap, WithGroup;
    GroupFurther(w, more, p);
    WithGapCons(p, GroupOf(w), l, r);
  }

  /** Words before the gap, then the gap and the words behind it. */
  lemma {:induction false} ReadGap(left: seq<string>, right: seq<string>, p: Parts)
    requires left != [] && Words(left) && Words(right) && p.gap.None? && |p.groups| + |left| + |right| <= 7
    ensures ParseGroups(Colons(left) + "::" + Colons(right), p) == Some(WithGap(p, Values(left), Values(right)))
    decreases |left|
  {
    Uncons(left);
    if |left| == 1 {
      hide ParseGroups, GroupOf, Values, Colons, Word, Words, WithGap;
      ReadLastGap(left[0], right, p);
    } else {
      var rest, next := left[1..], WithGroup(p, GroupOf(left[0]));
      assert next.gap.None? && |next.groups| == |p.groups| + 1;
      GapText(left, Colons(right));
      hide ParseGroups, GroupOf, Values, Colons, Word, Words, WithGap, WithGroup;
      var more := Colons(rest) + "::" + Colons(right);
      assert more[0] == Colons(rest)[0];
      ReadGap(rest, right, next);
      GapFurther(left[0], more, p, Values(rest), Values(right));
    }
  }

  lemma Uncons(ws: seq<string>)
    requires ws != [] && Words(ws)
    ensures Word(ws[0]) && Words(ws[1..]) && Values(ws) == [GroupOf(ws[0])] + Values(ws[1..])
    ensures |ws| == 1 ==> Values(ws) == [GroupOf(ws[0])] && Colons(ws) == ws[0]
    ensures |ws| > 1 ==> Colons(ws[1..]) != "" && Colons(ws[1..])[0] != ':'
  {
    hide GroupOf;
    if |ws| > 1 { ColonsStart(ws[1..]); }
  }

  /** Eight words are read as their values. */
  lemma SixWords(ws: seq<string>)
    requires |ws| == 8 && Words(ws)
    ensures ParseSix(Colons(ws)) == Some(Values(ws))
  {
    ColonsStart(ws);
    ReadWords(ws, Parts([], None));
    hide ParseGroups, Colons, Values;
    assert [] + Values(ws) == Values(ws);
  }

  lemma ExpandGap(l: seq<Group>, r: seq<Group>)
    requires |l| + |r| <= 7
    ensures Expand(Parts(l + r, Some(|l|))) == Some(l + Zeros(8 - |l| - |r|) + r)
  {
    assert (l + r)[..|l|] == l && (l + r)[|l|..] == r;
  }

  lemma PlainStart(s: string)
    requires s != "" && IsHex(s[0])
    ensures var read := ParseGroups(s, Parts([], None));
      ParseSix(s) == if read.Some? then Expand(read.value) else None
  {
    hide ParseGroups, Expand;
    assert s[0] != ':';
  }

  /** A double colon stands for the zeros that are missing, in the middle or at the end. */
  lemma SixGap(left: seq<string>, right: seq<string>)
    requires left != [] && Words(left) && Words(right) && |left| + |right| <= 7
    ensures ParseSix(Colons(left) + "::" + Colons(right)) ==
            Some(Values(left) + Zeros(8 - |left| - |right|) + Values(right))
  {
    ColonsStart(left);
    hide ParseSix, ParseGroups, Values, Zeros, Colons, Expand, Words;
    var l, r, s := Values(left), Values(right), Colons(left) + "::" + Colons(right);
    assert s[0] == Colons(left)[0];
    PlainStart(s);
    ReadGap(left, right, Parts([], None));
    NoPrefix(l);
    ExpandGap(l, r);
  }

  lemma LeadingGap(rest: string)
    requires rest != ""
    ensures var read := ParseGroups(rest, Parts([], Some(0)));
      ParseSix("::" + rest) == if read.Some? then Expand(read.value) else None
  {
    hide ParseGroups, Expand;
    var s := "::" + rest;
    assert s[2..] == rest && |s| > 2;
  }

  /** So does one at the start. */
  lemma SixLeadingGap(right: seq<string>)
    requires right != [] && Words(right) && |right| <= 7
    ensures ParseSix("::" + Colons(right)) == Some(Zeros(8 - |right|) + Values(right))
  {
    ColonsStart(right);
    hide ParseSix, ParseGroups, Values, Zeros, Colons, Expand, Words;
    var r := Values(right);
    LeadingGap(Colons(right));
    ReadWords(right, Parts([], Some(0)));
    NoPrefix(r);
    ExpandGap([], r);
  }

  lemma NoPrefix(r: seq<Group>)
    requires |r| <= 7
    ensures [] + r == r && [] + Zeros(8 - |r|) + r == Zeros(8 - |r|) + r
  {}
}
