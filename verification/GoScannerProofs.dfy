/** Stripping comments keeps the layout of a source text, and an offset found in the stripped text may be
    carried back to the raw one. */
module GoScannerProofs {
  import opened Text
  import opened GoScanner

  // ---- what stands at a cut depends on its own characters -----------------

  // ---- where a literal or a comment ends ----------------------------------

  /** Backslashes directly before a position, counted back to a start. */
  function Backslashes(s: string, start: nat, k: nat): nat
    requires start <= k <= |s|
  {
    if k > start && s[k - 1] == '\\' then 1 + Backslashes(s, start, k - 1) else 0
  }

  /** A quote that no backslash escapes. */
  predicate Unescaped(s: string, start: nat, quote: char, k: nat) {
    start <= k < |s| && s[k] == quote && Backslashes(s, start, k) % 2 == 0
  }

  predicate FirstUnescaped(s: string, start: nat, quote: char, k: nat) {
    Unescaped(s, start, quote, k) && forall j :: start <= j < k ==> !Unescaped(s, start, quote, j)
  }

  lemma {:induction false} QuoteFrom(s: string, quote: char, start: nat, i: nat)
    requires start <= i <= |s| && quote != '\\'
    ensures var r := QuoteEnd(s, quote, i, Backslashes(s, start, i) % 2 == 1);
      && (r == -1 <==> forall k :: i <= k < |s| ==> !Unescaped(s, start, quote, k))
      && (r >= 0 ==> Unescaped(s, start, quote, r - 1))
      && forall k :: i <= k < r - 1 ==> !Unescaped(s, start, quote, k)
    decreases |s| - i
  {
    if i < |s| {
      var run := Backslashes(s, start, i);
      assert Backslashes(s, start, i + 1) == if s[i] == '\\' then run + 1 else 0;
      QuoteFrom(s, quote, start, i + 1);
      assert Unescaped(s, start, quote, i) <==> s[i] == quote && run % 2 == 0;
      var r := QuoteEnd(s, quote, i, run % 2 == 1);
      if Unescaped(s, start, quote, i) {
        assert r == i + 1;
      } else {
        assert r == QuoteEnd(s, quote, i + 1, Backslashes(s, start, i + 1) % 2 == 1);
        hide QuoteEnd, Backslashes, Unescaped;
      }
    }
  }

  /** A quoted literal ends behind the first quote of its kind with an even run of backslashes before it, and does not
      end exactly when there is none. */
  lemma QuoteEndsUnescaped(s: string, quote: char, start: nat)
    requires start <= |s| && quote != '\\'
    ensures var r := QuoteEnd(s, quote, start, false);
      && (r == -1 <==> forall k :: start <= k < |s| ==> !Unescaped(s, start, quote, k))
      && (r >= 0 ==> FirstUnescaped(s, start, quote, r - 1))
  {
    assert Backslashes(s, start, start) == 0;
    QuoteFrom(s, quote, start, start);
  }

  /** Where the piece that starts at a position ends: a line comment before the first newline or at the end of the text,
      a block comment behind its first end mark, a raw string behind the next back quote, a quoted literal behind the
      first quote that is not escaped. Without such an end the scan fails; anything else is one code character. */
  ghost predicate EndsAt(s: string, i: nat, end: nat)
    requires i < |s|
  {
    if Pair(s, i, '/', '/') then
      && i + 2 <= end <= |s| && (end < |s| ==> s[end] == '\n') && forall k :: i + 2 <= k < end ==> s[k] != '\n'
    else if Pair(s, i, '/', '*') then
      && i + 4 <= end && Pair(s, end - 2, '*', '/') && forall k :: i + 2 <= k < end - 2 ==> !Pair(s, k, '*', '/')
    else if s[i] == '`' then
      && i + 2 <= end <= |s| && s[end - 1] == '`' && forall k :: i + 1 <= k < end - 1 ==> s[k] != '`'
    else if s[i] == '"' || s[i] == '\'' then
      && i + 2 <= end && FirstUnescaped(s, i + 1, s[i], end - 1)
    else end == i + 1
  }

  /** The scan finds exactly that end, says comment exactly at the two comment marks and literal exactly at the three
      quotes, and fails exactly when there is no end. */
  lemma ScanMeaning(s: string, i: nat, end: nat)
    requires i < |s|
    ensures !Scan(s, i).Broken? && Scan(s, i).end == end <==> EndsAt(s, i, end)
    ensures !Scan(s, i).Broken? ==>
      && (Scan(s, i).Comment? <==> Pair(s, i, '/', '/') || Pair(s, i, '/', '*'))
      && (Scan(s, i).Literal? <==> s[i] in {'`', '"', '\''})
  {
    if s[i] == '"' || s[i] == '\'' {
      QuoteEndsUnescaped(s, s[i], i + 1);
      hide QuoteEnd, Find, FindClose, Backslashes;
    } else {
      hide QuoteEnd, Unescaped;
    }
  }

  lemma {:induction false} FindLocal(s: string, t: string, a: nat, c: char, from: nat)
    requires a <= from && Find(s, c, from) >= 0
    requires Find(s, c, from) - a < |t|
    requires forall k :: from <= k <= Find(s, c, from) ==> t[k - a] == s[k]
    ensures Find(t, c, from - a) == Find(s, c, from) - a
    decreases |s| - from
  {
    if s[from] != c { FindLocal(s, t, a, c, from + 1); }
  }

  lemma {:induction false} FindCloseLocal(s: string, t: string, a: nat, from: nat)
    requires a <= from && FindClose(s, from) >= 0
    requires FindClose(s, from) + 1 - a < |t|
    requires forall k :: from <= k <= FindClose(s, from) + 1 ==> t[k - a] == s[k]
    ensures FindClose(t, from - a) == FindClose(s, from) - a
    decreases |s| - from
  {
    if !Pair(s, from, '*', '/') { FindCloseLocal(s, t, a, from + 1); }
  }

  lemma {:induction false} QuoteLocal(s: string, t: string, a: nat, quote: char, i: nat, escaped: bool)
    requires a <= i && QuoteEnd(s, quote, i, escaped) >= 0
    requires QuoteEnd(s, quote, i, escaped) - a <= |t|
    requires forall k :: i <= k < QuoteEnd(s, quote, i, escaped) ==> t[k - a] == s[k]
    ensures QuoteEnd(t, quote, i - a, escaped) == QuoteEnd(s, quote, i, escaped) - a
    decreases |s| - i
  {
    if escaped {
      QuoteLocal(s, t, a, quote, i + 1, false);
    } else if s[i] == '\\' {
      QuoteLocal(s, t, a, quote, i + 1, true);
    } else if s[i] != quote {
      QuoteLocal(s, t, a, quote, i + 1, false);
    }
  }

  function Shift(p: Piece, a: nat): Piece
    requires !p.Broken? && a <= p.end
  {
    match p
    case Code(end) => Code(end - a)
    case Literal(end) => Literal(end - a)
    case Comment(end) => Comment(end - a)
  }

  /** A literal or a comment is recognised by its own characters, a code character by itself and, after a slash, the
      next one. */
  lemma {:induction false} ScanLocal(s: string, t: string, a: nat, i: nat)
    requires a <= i < |s| && !Scan(s, i).Broken?
    requires Scan(s, i).end - a <= |t|
    requires forall k :: i <= k < Scan(s, i).end ==> t[k - a] == s[k]
    requires LineComment(s, i) ==> Scan(s, i).end < |s| && Scan(s, i).end - a < |t| && t[Scan(s, i).end - a] == '\n'
    requires Scan(s, i).Code? && i + 1 - a < |t| ==>
      (i + 1 < |s| && t[i + 1 - a] == s[i + 1]) || (t[i + 1 - a] != '/' && t[i + 1 - a] != '*')
    ensures Scan(t, i - a) == Shift(Scan(s, i), a)
  {
    hide Find, FindClose, QuoteEnd;
    var e := Scan(s, i).end;
    if LineComment(s, i) {
      assert t[i - a] == '/' && t[i + 1 - a] == '/';
      FindLocal(s, t, a, '\n', i + 2);
    } else if BlockComment(s, i) {
      assert t[i - a] == '/' && t[i + 1 - a] == '*';
      FindCloseLocal(s, t, a, i + 2);
    } else if s[i] == '`' {
      FindLocal(s, t, a, '`', i + 1);
    } else if s[i] == '"' || s[i] == '\'' {
      QuoteLocal(s, t, a, s[i], i + 1, false);
    }
  }

  // ---- raw and stripped text, cut by cut ----------------------------------

  lemma StripUnfold(s: string, i: nat)
    requires i < |s| && !Scan(s, i).Broken?
    ensures Strip(s, i) == Prepend(Shown(Scan(s, i), s, i), Strip(s, Scan(s, i).end))
  {
    hide Scan;
  }

  /** t is s with every comment from cut i on blanked. */
  predicate Stripped(s: string, t: string, i: nat) {
    |t| == |s| && i <= |s| && Strip(s, i) == Some(t[i..])
  }

  lemma {:induction false} StrippedStep(s: string, t: string, i: nat)
    requires Stripped(s, t, i) && i < |s|
    ensures !Scan(s, i).Broken?
    ensures Stripped(s, t, Scan(s, i).end)
    ensures forall k :: i <= k < Scan(s, i).end ==> t[k] == if Scan(s, i).Comment? then Blanked(s[k]) else s[k]
  {
    hide Scan;
    var piece := Scan(s, i);
    var shown := Shown(piece, s, i);
    var rest := Strip(s, piece.end);
    assert t[i..] == shown + rest.value;
    assert t[piece.end..] == t[i..][|shown|..] == rest.value;
    forall k | i <= k < piece.end ensures t[k] == shown[k - i] {
      assert t[k] == t[i..][k - i];
    }
  }

  lemma StrippedHead(s: string, t: string, i: nat)
    requires Stripped(s, t, i) && i < |s|
    ensures t[i] == s[i] || IsBlank(t[i])
  {
    hide Scan, Strip;
    StrippedStep(s, t, i);
  }

  /** Code and literals are scanned alike in both texts; a comment is a run of blanks in the stripped one. */
  lemma StrippedScan(s: string, t: string, i: nat)
    requires Stripped(s, t, i) && i < |s|
    ensures !Scan(s, i).Broken?
    ensures !Scan(s, i).Comment? ==> Scan(t, i) == Scan(s, i) && t[i] == s[i]
    ensures Scan(s, i).Comment? ==> forall k :: i <= k < Scan(s, i).end ==> IsBlank(t[k])
  {
    hide Strip, Find, FindClose, QuoteEnd;
    StrippedStep(s, t, i);
    if !Scan(s, i).Comment? {
      if i + 1 < |s| && Scan(s, i).Code? { StrippedHead(s, t, i + 1); }
      ScanLocal(s, t, 0, i);
    }
  }

  lemma BlankScan(t: string, k: nat)
    requires k < |t| && IsBlank(t[k])
    ensures Scan(t, k) == Code(k + 1)
  {}

  lemma {:induction false} StripBlanks(t: string, i: nat, e: nat)
    requires i <= e <= |t| && forall k :: i <= k < e ==> IsBlank(t[k])
    requires Strip(t, e) == Some(t[e..])
    ensures Strip(t, i) == Some(t[i..])
    decreases e - i
  {
    hide Scan, Strip, IsBlank;
    if i < e {
      BlankScan(t, i);
      StripBlanks(t, i + 1, e);
      StripUnfold(t, i);
      assert Shown(Code(i + 1), t, i) == t[i..i + 1];
      assert t[i..i + 1] + t[i + 1..] == t[i..];
    }
  }

  lemma {:induction false} StripAgain(s: string, t: string, i: nat)
    requires Stripped(s, t, i)
    ensures Strip(t, i) == Some(t[i..])
    decreases |s| - i
  {
    if i == |s| {
      assert t[i..] == "";
    } else {
      hide Scan, Strip;
      StrippedStep(s, t, i);
      StrippedScan(s, t, i);
      var piece := Scan(s, i);
      StripAgain(s, t, piece.end);
      if piece.Comment? {
        StripBlanks(t, i, piece.end);
      } else {
        StripUnfold(t, i);
        assert t[i..piece.end] + t[piece.end..] == t[i..];
      }
    }
  }

  lemma {:induction false} SameNewlines(s: string, t: string, i: nat, k: nat)
    requires Stripped(s, t, i) && i <= k < |s|
    ensures t[k] == '\n' || s[k] == '\n' ==> t[k] == s[k]
    ensures t[k] == s[k] || t[k] == ' '
    decreases |s| - i
  {
    hide Scan, Strip;
    StrippedStep(s, t, i);
    if Scan(s, i).end <= k { SameNewlines(s, t, Scan(s, i).end, k); }
  }

  /** The scan from a cut passes over a position inside a comment. */
  predicate InComment(s: string, i: nat, k: nat)
    requires i <= |s|
    decreases |s| - i
  {
    i < |s| && !Scan(s, i).Broken? &&
    if k < Scan(s, i).end then i <= k && Scan(s, i).Comment? else InComment(s, Scan(s, i).end, k)
  }

  /** The scan from a cut comes to an unterminated comment or literal. */
  predicate Breaks(s: string, i: nat)
    requires i <= |s|
    decreases |s| - i
  {
    i < |s| && (Scan(s, i).Broken? || Breaks(s, Scan(s, i).end))
  }

  lemma {:induction false} StripFailsIff(s: string, i: nat)
    requires i <= |s|
    ensures Strip(s, i).None? <==> Breaks(s, i)
    decreases |s| - i
  {
    hide Scan;
    if i < |s| && !Scan(s, i).Broken? {
      ScanBounds(s, i);
      StripFailsIff(s, Scan(s, i).end);
    }
  }

  lemma ScanBounds(s: string, i: nat)
    requires i < |s| && !Scan(s, i).Broken?
    ensures i < Scan(s, i).end <= |s|
  {}

  lemma {:induction false} StrippedCharacter(s: string, t: string, i: nat, k: nat)
    requires Stripped(s, t, i) && i <= k < |s|
    ensures t[k] == if InComment(s, i, k) && s[k] != '\n' then ' ' else s[k]
    decreases |s| - i
  {
    StrippedStep(s, t, i);
    ScanBounds(s, i);
    hide Scan;
    if k >= Scan(s, i).end { StrippedCharacter(s, t, Scan(s, i).end, k); }
  }

  /** Stripping fails exactly on an unterminated comment or literal. Otherwise it blanks exactly the characters inside
      comments, newlines excepted. */
  lemma StripBlanksComments(s: string)
    ensures Strip(s, 0).None? <==> Breaks(s, 0)
    ensures Strip(s, 0).Some? ==> forall k :: 0 <= k < |s| ==>
      Strip(s, 0).value[k] == if InComment(s, 0, k) && s[k] != '\n' then ' ' else s[k]
  {
    StripFailsIff(s, 0);
    if Strip(s, 0).Some? {
      var t := Strip(s, 0).value;
      assert Stripped(s, t, 0);
      hide Strip, Scan, InComment;
      forall k | 0 <= k < |s| ensures t[k] == if InComment(s, 0, k) && s[k] != '\n' then ' ' else s[k] {
        StrippedCharacter(s, t, 0, k);
      }
    }
  }

  /** Stripping keeps the length and the newlines, changes characters only to blanks, and is idempotent. */
  lemma StripKeepsLayout(s: string)
    requires Strip(s, 0).Some?
    ensures var t := Strip(s, 0).value;
      && |t| == |s|
      && (forall k :: 0 <= k < |s| ==> (t[k] == '\n' <==> s[k] == '\n') && (t[k] == s[k] || t[k] == ' '))
      && Strip(t, 0) == Some(t)
  {
    var t := Strip(s, 0).value;
    assert t[0..] == t;
    hide Strip;
    forall k | 0 <= k < |s| ensures (t[k] == '\n' <==> s[k] == '\n') && (t[k] == s[k] || t[k] == ' ') {
      SameNewlines(s, t, 0, k);
    }
    StripAgain(s, t, 0);
  }

  // ---- matching delimiters ------------------------------------------------

  /** A delimiter that stripping can neither add nor remove, nor begin a comment or literal with. */
  predicate Delimiter(c: char) { !IsBlank(c) && c !in {'/', '`', '"', '\''} }

  lemma {:induction false} CloseBlanks(t: string, i: nat, e: nat, depth: int, left: char, right: char)
    requires i <= e <= |t| && forall k :: i <= k < e ==> IsBlank(t[k])
    requires Delimiter(left) && Delimiter(right)
    ensures Close(t, i, depth, left, right) == Close(t, e, depth, left, right)
    decreases e - i
  {
    if i < e {
      BlankScan(t, i);
      hide Scan;
      CloseBlanks(t, i + 1, e, depth, left, right);
    }
  }

  lemma {:induction false} CloseStripped(s: string, t: string, i: nat, depth: int, left: char, right: char)
    requires Stripped(s, t, i) && Delimiter(left) && Delimiter(right)
    ensures Close(t, i, depth, left, right) == Close(s, i, depth, left, right)
    decreases |s| - i
  {
    if i < |s| {
      hide Scan, Strip;
      StrippedStep(s, t, i);
      StrippedScan(s, t, i);
      var piece := Scan(s, i);
      CloseStripped(s, t, piece.end, if piece.Code? then Turn(s[i], depth, left, right) else depth, left, right);
      if piece.Comment? {
        CloseBlanks(t, i, piece.end, depth, left, right);
      }
    }
  }

  lemma {:induction false} StrippedAt(s: string, t: string, i: nat, p: nat)
    requires Stripped(s, t, i) && CodeAt(s, i, p)
    ensures Stripped(s, t, p) && p < |s| && Scan(s, p).Code? && t[p] == s[p] && CodeAt(t, i, p)
    decreases |s| - i
  {
    StrippedStep(s, t, i);
    StrippedScan(s, t, i);
    hide Scan, Strip;
    var piece := Scan(s, i);
    if i < p {
      StrippedAt(s, t, piece.end, p);
      if piece.Comment? { CodeAfterBlanks(t, i, piece.end, p); }
    }
  }

  lemma {:induction false} CodeAfterBlanks(t: string, i: nat, e: nat, p: nat)
    requires i <= e <= p < |t| && forall k :: i <= k < e ==> IsBlank(t[k])
    ensures CodeAt(t, i, p) == CodeAt(t, e, p)
    decreases e - i
  {
    if i < e {
      BlankScan(t, i);
      hide Scan;
      CodeAfterBlanks(t, i + 1, e, p);
    }
  }

  /** A code character of the stripped text that is not a blank is code in the raw text too. */
  lemma {:induction false} CodeInRaw(s: string, t: string, i: nat, p: nat)
    requires Stripped(s, t, i) && CodeAt(t, i, p) && p < |t| && !IsBlank(t[p])
    ensures CodeAt(s, i, p)
    decreases |s| - i
  {
    StrippedStep(s, t, i);
    StrippedScan(s, t, i);
    hide Scan, Strip;
    var piece := Scan(s, i);
    if piece.Comment? {
      assert piece.end <= p;
      CodeAfterBlanks(t, i, piece.end, p);
      CodeInRaw(s, t, piece.end, p);
    } else if i < p {
      CodeInRaw(s, t, piece.end, p);
    }
  }

  // ---- what the matching delimiter is -------------------------------------

  /** Openings minus closings among the code positions from a cut up to and with a position. */
  function Net(s: string, i: nat, p: int, left: char, right: char): int
    requires i <= |s| && p < |s|
    decreases p - i + 1
  {
    if p < i then 0
    else Net(s, i, p - 1, left, right) + if CodeAt(s, i, p) then Turn(s[p], 0, left, right) else 0
  }

  /** A closing delimiter in code at which a depth is brought back to zero. */
  predicate Balances(s: string, i: nat, depth: int, p: nat, left: char, right: char)
    requires i <= |s|
  {
    p < |s| && CodeAt(s, i, p) && s[p] == right && s[p] != left && depth + Net(s, i, p, left, right) == 0
  }

  lemma NextCode(s: string, i: nat, p: nat)
    requires i < |s| && i < p && !Scan(s, i).Broken?
    ensures CodeAt(s, i, p) <==> Scan(s, i).end <= p && CodeAt(s, Scan(s, i).end, p)
  {}

  lemma {:induction false} NetStep(s: string, i: nat, p: int, left: char, right: char)
    requires i < |s| && !Scan(s, i).Broken? && i <= p < |s|
    ensures Net(s, i, p, left, right) ==
            (if Scan(s, i).Code? then Turn(s[i], 0, left, right) else 0) + Net(s, Scan(s, i).end, p, left, right)
    decreases p - i
  {
    var end := Scan(s, i).end;
    if p > i {
      NetStep(s, i, p - 1, left, right);
      NextCode(s, i, p);
    } else {
      assert Net(s, i, i - 1, left, right) == 0;
    }
    hide Scan, CodeAt;
  }

  lemma BalancesStep(s: string, i: nat, depth: int, p: nat, left: char, right: char)
    requires i < |s| && !Scan(s, i).Broken? && i < p
    ensures var next := if Scan(s, i).Code? then Turn(s[i], depth, left, right) else depth;
      Balances(s, i, depth, p, left, right) <==> Balances(s, Scan(s, i).end, next, p, left, right)
  {
    NextCode(s, i, p);
    if p < |s| { NetStep(s, i, p, left, right); }
    hide Net;
    if CodeAt(s, Scan(s, i).end, p) { CodeIsAfter(s, Scan(s, i).end, p); }
  }

  lemma CodeIsAfter(s: string, i: nat, p: nat)
    requires i <= |s| && CodeAt(s, i, p)
    ensures i <= p
  {}

  lemma BalancesHere(s: string, i: nat, depth: int, left: char, right: char)
    requires i < |s| && !Scan(s, i).Broken?
    ensures Balances(s, i, depth, i, left, right) <==>
      Scan(s, i).Code? && s[i] == right && s[i] != left && depth == 1
  {
    assert Net(s, i, i - 1, left, right) == 0;
  }

  lemma NoCodeAfterBreak(s: string, i: nat, p: nat)
    requires i <= |s| && (i == |s| || Scan(s, i).Broken?)
    ensures !CodeAt(s, i, p)
  {}

  predicate FirstBalance(s: string, i: nat, depth: int, r: nat, left: char, right: char)
    requires i <= |s|
  {
    Balances(s, i, depth, r, left, right) && forall q :: i <= q < r ==> !Balances(s, i, depth, q, left, right)
  }

  lemma FirstBalanceStep(s: string, i: nat, depth: int, r: nat, left: char, right: char)
    requires i < |s| && !Scan(s, i).Broken? && !Balances(s, i, depth, i, left, right)
    ensures var next := if Scan(s, i).Code? then Turn(s[i], depth, left, right) else depth;
      FirstBalance(s, i, depth, r, left, right) <==> FirstBalance(s, Scan(s, i).end, next, r, left, right)
  {
    var end := Scan(s, i).end;
    var next := if Scan(s, i).Code? then Turn(s[i], depth, left, right) else depth;
    forall q: nat | i < q
      ensures Balances(s, i, depth, q, left, right) <==> Balances(s, end, next, q, left, right)
      ensures q < end ==> !Balances(s, end, next, q, left, right)
    {
      BalancesStep(s, i, depth, q, left, right);
      if CodeAt(s, end, q) { CodeIsAfter(s, end, q); }
    }
    if CodeAt(s, end, r) { CodeIsAfter(s, end, r); }
    if CodeAt(s, i, r) { CodeIsAfter(s, i, r); }
    assert end > i;
    assert Balances(s, end, next, r, left, right) ==> r >= end;
    assert Balances(s, i, depth, r, left, right) ==> r > i;
    hide Balances, Scan;
  }

  /** The scan returns the first closing delimiter in code at which openings and closings balance, and nothing exactly
      when there is none. */
  lemma {:induction false} CloseIsFirstBalance(s: string, i: nat, depth: int, r: nat, left: char, right: char)
    requires i <= |s|
    ensures Close(s, i, depth, left, right) == Some(r) <==> FirstBalance(s, i, depth, r, left, right)
    decreases |s| - i
  {
    if i == |s| || Scan(s, i).Broken? {
      NoCodeAfterBreak(s, i, r);
    } else {
      BalancesHere(s, i, depth, left, right);
      var end := Scan(s, i).end;
      var next := if Scan(s, i).Code? then Turn(s[i], depth, left, right) else depth;
      CloseIsFirstBalance(s, end, next, r, left, right);
      if Balances(s, i, depth, i, left, right) {
        assert Close(s, i, depth, left, right) == Some(i);
        FirstIsHere(s, i, depth, r, left, right);
      } else {
        FirstBalanceStep(s, i, depth, r, left, right);
        hide FirstBalance, Balances;
      }
    }
  }

  lemma FirstIsHere(s: string, i: nat, depth: int, r: nat, left: char, right: char)
    requires i <= |s| && Balances(s, i, depth, i, left, right)
    ensures FirstBalance(s, i, depth, r, left, right) <==> r == i
  {
    if CodeAt(s, i, r) { CodeIsAfter(s, i, r); }
  }

  /** From any code position the matching delimiter is found at the same offset in both texts, or in neither. */
  lemma SameBlock(s: string, p: nat, left: char, right: char)
    requires Strip(s, 0).Some? && CodeAt(s, 0, p) && Delimiter(left) && Delimiter(right)
    ensures Block(Strip(s, 0).value, p, left, right) == Block(s, p, left, right)
  {
    hide Scan, Strip, Close;
    var t := Strip(s, 0).value;
    assert t[0..] == t;
    StrippedAt(s, t, 0, p);
    CloseStripped(s, t, p, 0, left, right);
  }

  // ---- a function body cut out of a file ----------------------------------

  /** The scan from cut i arrives exactly at b. */
  predicate Through(s: string, i: nat, b: nat)
    requires i <= |s|
    decreases |s| - i
  {
    i == b || (i < b && i < |s| && !Scan(s, i).Broken? && Through(s, Scan(s, i).end, b))
  }

  lemma {:induction false} CloseIsThrough(s: string, i: nat, depth: int, left: char, right: char)
    requires i <= |s| && Close(s, i, depth, left, right).Some?
    ensures Through(s, i, Close(s, i, depth, left, right).value)
    decreases |s| - i
  {
    hide Scan;
    var piece := Scan(s, i);
    if Close(s, i, depth, left, right) != Some(i) {
      CloseIsThrough(s, piece.end, if piece.Code? then Turn(s[i], depth, left, right) else depth, left, right);
    }
  }

  lemma {:induction false} ThroughBound(s: string, i: nat, b: nat)
    requires i <= |s| && Through(s, i, b)
    ensures i <= b <= |s|
    decreases |s| - i
  {
    hide Scan;
    if i < b { ThroughBound(s, Scan(s, i).end, b); }
  }

  /** Inside a window that the scan leaves at a cut, the window's own scan sees the same pieces. */
  lemma {:induction false} WindowScan(s: string, a: nat, b: nat, i: nat)
    requires a <= i < b < |s| && Through(s, i, b) && s[b] != '\n'
    ensures !Scan(s, i).Broken? && Scan(s, i).end <= b && Through(s, Scan(s, i).end, b)
    ensures Scan(s[a..b], i - a) == Shift(Scan(s, i), a)
  {
    var e := Scan(s, i).end;
    ThroughBound(s, e, b);
    if LineComment(s, i) { LineEnd(s, i); }
    hide Scan;
    ScanLocal(s, s[a..b], a, i);
  }

  lemma LineEnd(s: string, i: nat)
    requires i < |s| && LineComment(s, i) && Scan(s, i).end < |s|
    ensures s[Scan(s, i).end] == '\n'
  {}

  lemma {:induction false} WindowStrips(s: string, w: string, a: nat, b: nat, i: nat)
    requires a <= i <= b < |s| && w == s[a..b] && Through(s, i, b) && s[b] != '\n'
    ensures Strip(w, i - a).Some?
    decreases b - i
  {
    hide Scan, Through, Strip, Shown;
    if i == b {
      StripEnd(w);
    } else {
      WindowScan(s, a, b, i);
      WindowStrips(s, w, a, b, Scan(s, i).end);
      StripUnfold(w, i - a);
    }
  }

  lemma StripEnd(s: string)
    ensures Strip(s, |s|) == Some("")
  {}

  lemma {:induction false} WindowClose(s: string, w: string, a: nat, b: nat, i: nat, depth: int, left: char,
      right: char)
    requires a <= i <= b < |s| && w == s[a..b] && Through(s, i, b) && s[b] != '\n'
    requires Close(s, i, depth, left, right).Some? && Close(s, i, depth, left, right).value < b
    ensures Close(w, i - a, depth, left, right) == Some(Close(s, i, depth, left, right).value - a)
    decreases b - i
  {
    hide Scan, Through;
    WindowScan(s, a, b, i);
    var piece := Scan(s, i);
    assert w[i - a] == s[i];
    if Close(s, i, depth, left, right) != Some(i) {
      WindowClose(s, w, a, b, piece.end, if piece.Code? then Turn(s[i], depth, left, right) else depth, left, right);
    }
  }

  lemma {:induction false} WindowCodeAt(s: string, a: nat, b: nat, i: nat, p: nat)
    requires a <= i <= p < b < |s| && Through(s, i, b) && s[b] != '\n'
    requires CodeAt(s[a..b], i - a, p - a)
    ensures CodeAt(s, i, p)
    decreases b - i
  {
    hide Scan, Through;
    WindowScan(s, a, b, i);
    if i < p { WindowCodeAt(s, a, b, Scan(s, i).end, p); }
  }

  lemma {:induction false} ThroughFromCode(s: string, i: nat, p: nat, b: nat)
    requires i <= |s| && p <= |s| && CodeAt(s, i, p) && Through(s, i, b) && p < b
    ensures Through(s, p, b)
    decreases |s| - i
  {
    hide Scan;
    if i < p { ThroughFromCode(s, Scan(s, i).end, p, b); }
  }

  // ---- nesting ------------------------------------------------------------

  /** A shallower count returns to zero first. */
  lemma {:induction false} ShallowerClosesFirst(s: string, i: nat, shallow: int, deep: int, left: char, right: char)
    requires i <= |s| && left != right && 1 <= shallow < deep
    requires Close(s, i, deep, left, right).Some?
    ensures Close(s, i, shallow, left, right).Some?
    ensures Close(s, i, shallow, left, right).value < Close(s, i, deep, left, right).value
    decreases |s| - i
  {
    hide Scan;
    var piece := Scan(s, i);
    if !piece.Code? {
      ShallowerClosesFirst(s, piece.end, shallow, deep, left, right);
    } else if s[i] != right || s[i] == left || shallow > 1 {
      ShallowerClosesFirst(s, piece.end, Turn(s[i], shallow, left, right), Turn(s[i], deep, left, right), left, right);
    }
  }

  /** The enclosing scan passes every code position before its end at a depth of at least one. */
  lemma {:induction false} DepthAt(s: string, i: nat, depth: int, p: nat, left: char, right: char) returns (d: int)
    requires i <= |s| && depth >= 1 && CodeAt(s, i, p)
    requires Close(s, i, depth, left, right).Some? && p < Close(s, i, depth, left, right).value
    ensures d >= 1 && p <= |s| && Close(s, p, d, left, right) == Close(s, i, depth, left, right)
    decreases |s| - i
  {
    hide Scan;
    var piece := Scan(s, i);
    if i == p {
      d := depth;
    } else {
      d := DepthAt(s, piece.end, if piece.Code? then Turn(s[i], depth, left, right) else depth, p, left, right);
    }
  }

  /** A block opened in code inside another block closes inside it. */
  lemma NestedCloses(s: string, i: nat, p: nat, left: char, right: char)
    requires i <= |s| && left != right && Close(s, i, 1, left, right).Some?
    requires CodeAt(s, i, p) && p < Close(s, i, 1, left, right).value && p < |s| && s[p] == left && Scan(s, p).Code?
    ensures Block(s, p, left, right).Some?
    ensures p < Block(s, p, left, right).value < Close(s, i, 1, left, right).value
  {
    hide Scan;
    var d := DepthAt(s, i, 1, p, left, right);
    ShallowerClosesFirst(s, p + 1, 1, d + 1, left, right);
  }

  lemma {:induction false} CodeAtIsCode(s: string, i: nat, p: nat)
    requires i <= |s| && CodeAt(s, i, p)
    ensures p < |s| && Scan(s, p).Code?
    decreases |s| - i
  {
    hide Scan;
    if i < p { CodeAtIsCode(s, Scan(s, i).end, p); }
  }

  lemma OpeningStep(s: string, opening: nat, left: char, right: char)
    requires Block(s, opening, left, right).Some? && Delimiter(left)
    ensures opening < |s| && Close(s, opening, 0, left, right) == Close(s, opening + 1, 1, left, right)
  {}

  /** A body cut out of a file at matching braces can always be stripped on its own. */
  lemma BodyStrips(s: string, opening: nat)
    requires Block(s, opening, '{', '}').Some?
    ensures opening < Block(s, opening, '{', '}').value
    ensures Strip(s[opening + 1..Block(s, opening, '{', '}').value], 0).Some?
  {
    OpeningStep(s, opening, '{', '}');
    hide Scan, Through, Close, Strip;
    CloseIsThrough(s, opening + 1, 1, '{', '}');
    var end := Block(s, opening, '{', '}').value;
    WindowStrips(s, s[opening + 1..end], opening + 1, end, opening + 1);
  }

  /** What the registry parser relies on. It strips such a body, finds a brace there and goes back to the file with
      its offset: the brace is closed inside the body, and the file and the stripped body agree on where. */
  lemma OffsetCarries(s: string, opening: nat, end: nat, t: string, p: nat)
    requires Block(s, opening, '{', '}') == Some(end) && opening < end
    requires Strip(s[opening + 1..end], 0) == Some(t)
    requires p < |t| && t[p] == '{' && CodeAt(t, 0, p)
    ensures Block(t, p, '{', '}').Some? && p < Block(t, p, '{', '}').value < |t|
    ensures Block(s, opening + 1 + p, '{', '}') == Some(opening + 1 + Block(t, p, '{', '}').value)
  {
    hide Scan, Strip, Through, CodeAt, Close;
    var a := opening + 1;
    var body := s[a..end];
    OpeningStep(s, opening, '{', '}');
    CloseIsThrough(s, a, 1, '{', '}');
    assert t[0..] == t;
    CodeInRaw(body, t, 0, p);
    SameBlock(body, p, '{', '}');
    StrippedAt(body, t, 0, p);
    WindowCodeAt(s, a, end, a, a + p);
    CodeAtIsCode(s, a, a + p);
    NestedCloses(s, a, a + p, '{', '}');
    ThroughFromCode(s, a, a + p, end);
    WindowClose(s, body, a, end, a + p, 0, '{', '}');
  }

  /** The restriction to code positions is needed: a brace inside a literal survives stripping, but scanning on
      from it takes the literal's end for a beginning, and the two texts part. */
  lemma LiteralOffsetDiffers()
    ensures var s := "`{`//`}";
      && Strip(s, 0) == Some("`{`    ")
      && Block(s, 1, '{', '}') == Some(6)
      && Block("`{`    ", 1, '{', '}') == None
  {
    hide Find, FindClose, QuoteEnd;
    var s, t := "`{`//`}", "`{`    ";
    assert s[0] == '`' && s[1] == '{' && s[2] == '`' && s[3] == '/' && s[4] == '/' && s[5] == '`' && s[6] == '}';
    assert t[1] == '{' && t[2] == '`' && t[3] == ' ' && t[4] == ' ' && t[5] == ' ' && t[6] == ' ';
    assert Scan(s, 0) == Literal(3) && Scan(s, 3) == Comment(7) && Scan(s, 2) == Literal(6);
    assert Scan(t, 2) == Broken;
    hide Scan;
    StripEnd(s);
    StripUnfold(s, 3);
    StripUnfold(s, 0);
    assert Shown(Literal(3), s, 0) == s[0..3] == "`{`";
    assert Shown(Comment(7), s, 3) == "    ";
    assert "`{`" + ("    " + "") == t;
    assert Scan(s, 1) == Code(2) && Scan(s, 6) == Code(7) && Scan(t, 1) == Code(2) by { BraceScan(s, t); }
    assert Close(s, 6, 1, '{', '}') == Some(6);
    assert Close(s, 2, 1, '{', '}') == Some(6);
    assert Close(t, 2, 1, '{', '}') == None;
  }

  lemma BraceScan(s: string, t: string)
    requires |s| == |t| == 7 && s[1] == '{' && s[6] == '}' && t[1] == '{'
    ensures Scan(s, 1) == Code(2) && Scan(s, 6) == Code(7) && Scan(t, 1) == Code(2)
  {}
}
