/** The parts of Go's `strings` and `strconv` that the modelled code works with,
    on `string` as a sequence of characters. */
module Text {

  datatype Option<+T> = None | Some(value: T)

  lemma Member<T>(s: set<T>) returns (x: T)
    requires s != {}
    ensures x in s
  {
    x :| x in s;
  }

  /** An octet of a byte string. */
  newtype Byte = n: int | 0 <= n < 256

  predicate IsHex(c: char) { '0' <= c <= '9' || 'a' <= c <= 'f' || 'A' <= c <= 'F' }

  /** No element twice. */
  predicate Distinct<T(==)>(s: seq<T>) { forall i, j :: 0 <= i < j < |s| ==> s[i] != s[j] }

  /** `unicode.IsSpace`. */
  predicate IsSpace(c: char) {
    var n := c as int;
    || 9 <= n <= 13 || n == 32 || n == 0x85 || n == 0xA0 || n == 0x1680
    || 0x2000 <= n <= 0x200A || n == 0x2028 || n == 0x2029 || n == 0x202F || n == 0x205F || n == 0x3000
  }

  predicate SpaceFree(s: string) {
    forall i :: 0 <= i < |s| ==> !IsSpace(s[i])
  }

  predicate Blank(s: string) {
    forall i :: 0 <= i < |s| ==> IsSpace(s[i])
  }

  /** A word that survives being printed on a line and read back by `Fields`. */
  predicate Token(s: string) {
    s != "" && SpaceFree(s)
  }

  predicate Tokens(ts: seq<string>) {
    forall i :: 0 <= i < |ts| ==> Token(ts[i])
  }

  function SpacePrefix(s: string): (n: nat)
    ensures n <= |s| && Blank(s[..n])
    ensures n < |s| ==> !IsSpace(s[n])
  {
    if s == "" || !IsSpace(s[0]) then 0
    else
      var k := SpacePrefix(s[1..]);
      assert s[..k + 1] == [s[0]] + s[1..][..k];
      k + 1
  }

  function WordPrefix(s: string): (n: nat)
    ensures n <= |s| && SpaceFree(s[..n])
    ensures n < |s| ==> IsSpace(s[n])
  {
    if s == "" || IsSpace(s[0]) then 0
    else
      var k := WordPrefix(s[1..]);
      assert s[..k + 1] == [s[0]] + s[1..][..k];
      k + 1
  }

  /** `strings.Fields`. */
  function Fields(s: string): (ts: seq<string>)
    ensures Tokens(ts)
    decreases |s|, 1
  {
    Words(s[SpacePrefix(s)..])
  }

  /** The words of a text that starts with one. */
  function Words(t: string): (ts: seq<string>)
    requires t != "" ==> !IsSpace(t[0])
    ensures Tokens(ts)
    decreases |t|, 0
  {
    if t == "" then []
    else
      var n := WordPrefix(t);
      [t[..n]] + Fields(t[n..])
  }

  /** `strings.TrimSpace`. */
  function TrimSpace(s: string): (t: string)
    ensures t != "" ==> !IsSpace(t[0]) && !IsSpace(t[|t| - 1])
  {
    TrimRight(s[SpacePrefix(s)..])
  }

  function TrimRight(s: string): (t: string)
    ensures t <= s && Blank(s[|t|..])
    ensures t != "" ==> !IsSpace(t[|t| - 1])
  {
    if s != "" && IsSpace(s[|s| - 1]) then
      var t := TrimRight(s[..|s| - 1]);
      assert s[|t|..] == s[..|s| - 1][|t|..] + [s[|s| - 1]];
      t
    else s
  }

  lemma {:induction false} WordPrefixOf(word: string, rest: string)
    requires SpaceFree(word)
    requires rest == "" || IsSpace(rest[0])
    ensures WordPrefix(word + rest) == |word|
  {
    if word != "" {
      WordPrefixOf(word[1..], rest);
      assert (word + rest)[1..] == word[1..] + rest;
    } else {
      assert word + rest == rest;
    }
  }

  lemma {:induction false} SpacePrefixOf(blank: string, rest: string)
    requires Blank(blank)
    requires rest == "" || !IsSpace(rest[0])
    ensures SpacePrefix(blank + rest) == |blank|
  {
    if blank != "" {
      SpacePrefixOf(blank[1..], rest);
      assert (blank + rest)[1..] == blank[1..] + rest;
    } else {
      assert blank + rest == rest;
    }
  }

  /** Reading one word off the front of a line, with any blanks before it. */
  lemma {:induction false} FieldsStep(blank: string, word: string, rest: string)
    requires Blank(blank) && Token(word)
    requires rest == "" || IsSpace(rest[0])
    ensures Fields(blank + word + rest) == [word] + Fields(rest)
  {
    var s := blank + word + rest;
    assert s == blank + (word + rest);
    SpacePrefixOf(blank, word + rest);
    assert s[|blank|..] == word + rest;
    WordsStep(word, rest);
  }

  lemma {:induction false} WordsStep(word: string, rest: string)
    requires Token(word)
    requires rest == "" || IsSpace(rest[0])
    ensures Words(word + rest) == [word] + Fields(rest)
  {
    hide Fields;
    WordPrefixOf(word, rest);
    assert (word + rest)[..|word|] == word;
    assert (word + rest)[|word|..] == rest;
  }

  lemma FieldsBlank(s: string)
    requires Blank(s)
    ensures Fields(s) == []
  {
    SpacePrefixOf(s, "");
    assert s + "" == s;
  }

  lemma FieldsUnlessBlank(s: string)
    ensures Fields(s) == [] <==> SpacePrefix(s) == |s|
  {}

  lemma {:induction false} FieldsSkip(blank: string, s: string)
    requires Blank(blank)
    ensures Fields(blank + s) == Fields(s)
  {
    hide Words;
    var n := SpacePrefix(s);
    assert blank + s == (blank + s[..n]) + s[n..];
    assert Blank(blank + s[..n]);
    SpacePrefixOf(blank + s[..n], s[n..]);
    assert (blank + s)[|blank| + n..] == s[n..];
  }

  /** Splits a line at its first word. */
  lemma {:induction false} FirstField(s: string) returns (blank: string, word: string, rest: string)
    requires Fields(s) != []
    ensures Blank(blank) && Token(word) && (rest == "" || IsSpace(rest[0]))
    ensures s == blank + word + rest
    ensures Fields(s) == [word] + Fields(rest)
  {
    var n := SpacePrefix(s);
    blank := s[..n];
    var t := s[n..];
    var w := WordPrefix(t);
    word, rest := t[..w], t[w..];
    assert s == blank + word + rest;
    assert word != "" by { FieldsUnlessBlank(s); }
    hide Words;
    FieldsStep(blank, word, rest);
  }

  /** `strings.Split` on a one-character separator. */
  function SplitOn(s: string, sep: char): (parts: seq<string>)
    ensures |parts| > 0
  {
    if s == "" then [""]
    else
      var tail := SplitOn(s[1..], sep);
      if s[0] == sep then [""] + tail else [[s[0]] + tail[0]] + tail[1..]
  }

  /** `strings.Join` on a one-character separator. */
  function JoinWith(parts: seq<string>, sep: char): string {
    if parts == [] then ""
    else if |parts| == 1 then parts[0]
    else parts[0] + [sep] + JoinWith(parts[1..], sep)
  }

  lemma {:induction false} SplitWhole(s: string, sep: char)
    requires sep !in s
    ensures SplitOn(s, sep) == [s]
  {
    if s != "" {
      SplitWhole(s[1..], sep);
      assert [s[0]] + s[1..] == s;
    }
  }

  lemma {:induction false} SplitFirst(head: string, rest: string, sep: char)
    requires sep !in head
    ensures SplitOn(head + [sep] + rest, sep) == [head] + SplitOn(rest, sep)
  {
    var s := head + [sep] + rest;
    if head == "" {
      assert s[1..] == rest;
    } else {
      SplitFirst(head[1..], rest, sep);
      assert s[1..] == head[1..] + [sep] + rest;
      assert [head[0]] + head[1..] == head;
    }
  }

  lemma {:induction false} SplitJoin(parts: seq<string>, sep: char)
    requires parts != []
    requires forall i :: 0 <= i < |parts| ==> sep !in parts[i]
    ensures SplitOn(JoinWith(parts, sep), sep) == parts
  {
    if |parts| == 1 {
      SplitWhole(parts[0], sep);
    } else {
      SplitFirst(parts[0], JoinWith(parts[1..], sep), sep);
      SplitJoin(parts[1..], sep);
    }
  }

  lemma {:induction false} JoinSplit(s: string, sep: char)
    ensures JoinWith(SplitOn(s, sep), sep) == s
  {
    if s != "" {
      JoinSplit(s[1..], sep);
      var rest := SplitOn(s[1..], sep);
      if s[0] == sep {
        assert ([""] + rest)[1..] == rest;
      } else {
        var parts := SplitOn(s, sep);
        assert parts[1..] == rest[1..];
      }
    }
  }

  /** Words joined by single blanks are read back as the same words. */
  lemma {:induction false} FieldsJoin(ts: seq<string>)
    requires Tokens(ts)
    ensures Fields(JoinWith(ts, ' ')) == ts
  {
    hide Words, SpacePrefix;
    if |ts| == 1 {
      FieldsStep("", ts[0], "");
      FieldsBlank("");
      assert "" + ts[0] + "" == ts[0];
    } else if |ts| == 0 {
      FieldsBlank("");
    } else {
      var rest := " " + JoinWith(ts[1..], ' ');
      FieldsStep("", ts[0], rest);
      assert "" + ts[0] + rest == JoinWith(ts, ' ');
      FieldsSkip(" ", JoinWith(ts[1..], ' '));
      FieldsJoin(ts[1..]);
    }
  }

  lemma {:induction false} JoinedLine(ts: seq<string>)
    requires Tokens(ts)
    ensures '\n' !in JoinWith(ts, ' ')
    ensures ts != [] ==>
      var s := JoinWith(ts, ' ');
      s != "" && !IsSpace(s[0]) && !IsSpace(s[|s| - 1])
  {
    if |ts| > 1 { JoinedLine(ts[1..]); }
  }

  lemma TrimIdle(s: string)
    requires s != "" ==> !IsSpace(s[0]) && !IsSpace(s[|s| - 1])
    ensures TrimSpace(s) == s
  {
    SpacePrefixOf("", s);
    assert "" + s == s;
  }

  // ---- decimal numbers --------------------------------------------------

  predicate IsDigit(c: char) { '0' <= c <= '9' }

  predicate Digits(s: string) {
    forall i :: 0 <= i < |s| ==> IsDigit(s[i])
  }

  /** `strconv.Itoa` on a natural number. */
  function Decimal(n: nat): (s: string)
    ensures s != "" && Digits(s)
  {
    var last := [('0' as int + n % 10) as char];
    if n < 10 then last else Decimal(n / 10) + last
  }

  function DigitsValue(s: string): nat
    requires Digits(s)
  {
    if s == "" then 0
    else 10 * DigitsValue(s[..|s| - 1]) + (s[|s| - 1] as int - '0' as int)
  }

  lemma {:induction false} DecimalValue(n: nat)
    ensures DigitsValue(Decimal(n)) == n
  {
    if n >= 10 {
      DecimalValue(n / 10);
      var s := Decimal(n);
      assert s[..|s| - 1] == Decimal(n / 10);
    } else {
      assert Decimal(n)[..0] == "";
    }
  }

  /** A decimal numeral has no leading zero unless it is "0". */
  lemma {:induction false} DecimalLead(n: nat)
    ensures n > 0 ==> Decimal(n)[0] != '0'
    ensures n < 10 ==> |Decimal(n)| == 1
    ensures n < 100 ==> |Decimal(n)| <= 2
    ensures n < 1000 ==> |Decimal(n)| <= 3
  {
    if n >= 10 { DecimalLead(n / 10); }
  }

  const MAX_INT := 0x7FFF_FFFF_FFFF_FFFF

  /** The value `strconv.Atoi` returns: zero on a syntax error, the nearest bound on a range error. */
  function Atoi(s: string): int {
    var signed := s != "" && (s[0] == '-' || s[0] == '+');
    var digits := if signed then s[1..] else s;
    if digits == "" || !Digits(digits) then 0
    else
      var value: int := DigitsValue(digits);
      if signed && s[0] == '-' then
        (if value > MAX_INT + 1 then -MAX_INT - 1 else -value)
      else
        (if value > MAX_INT then MAX_INT else value)
  }

  lemma AtoiDecimal(n: nat)
    requires n <= MAX_INT
    ensures Atoi(Decimal(n)) == n
  {
    DecimalValue(n);
    assert IsDigit(Decimal(n)[0]);
  }
}
