/** The scanners that read Go source while skipping comments and literals. A scan moves from cut to cut:
    at a cut stands a comment, a literal or one code character. Errors are `None`. */
module GoScanner {
  import opened Text

  // ---- searching ----------------------------------------------------------

  /** `str.find` for one character; -1 when there is none. */
  function Find(s: string, c: char, from: nat): (r: int)
    ensures r == -1 || from <= r < |s|
    ensures r == -1 ==> forall k :: from <= k < |s| ==> s[k] != c
    ensures r >= 0 ==> s[r] == c && forall k :: from <= k < r ==> s[k] != c
    decreases |s| - from
  {
    if from >= |s| then -1 else if s[from] == c then from else Find(s, c, from + 1)
  }

  predicate Pair(s: string, i: int, a: char, b: char) {
    0 <= i && i + 1 < |s| && s[i] == a && s[i + 1] == b
  }

  /** `str.find` for the end mark of a block comment. */
  function FindClose(s: string, from: nat): (r: int)
    ensures r == -1 || from <= r < |s| - 1
    ensures r == -1 ==> forall k :: from <= k ==> !Pair(s, k, '*', '/')
    ensures r >= 0 ==> Pair(s, r, '*', '/') && forall k :: from <= k < r ==> !Pair(s, k, '*', '/')
    decreases |s| - from
  {
    if from + 1 >= |s| then -1 else if Pair(s, from, '*', '/') then from else FindClose(s, from + 1)
  }

  /** Index just past the closing quote, reading escapes; -1 when the literal does not end. */
  function QuoteEnd(s: string, quote: char, i: nat, escaped: bool): (r: int)
    ensures r == -1 || i < r <= |s|
    decreases |s| - i
  {
    if i >= |s| then -1
    else if escaped then QuoteEnd(s, quote, i + 1, false)
    else if s[i] == '\\' then QuoteEnd(s, quote, i + 1, true)
    else if s[i] == quote then i + 1
    else QuoteEnd(s, quote, i + 1, false)
  }

  // ---- what stands at a cut -----------------------------------------------

  datatype Piece = Code(end: nat) | Literal(end: nat) | Comment(end: nat) | Broken

  predicate LineComment(s: string, i: nat) { Pair(s, i, '/', '/') }

  predicate BlockComment(s: string, i: nat) { Pair(s, i, '/', '*') }

  function Scan(s: string, i: nat): (p: Piece)
    requires i < |s|
    ensures !p.Broken? ==> i < p.end <= |s|
    ensures p.Code? ==> p.end == i + 1
  {
    if LineComment(s, i) then
      var newline := Find(s, '\n', i + 2);
      Comment(if newline < 0 then |s| else newline)
    else if BlockComment(s, i) then
      var close := FindClose(s, i + 2);
      if close < 0 then Broken else Comment(close + 2)
    else if s[i] == '`' then
      var close := Find(s, '`', i + 1);
      if close < 0 then Broken else Literal(close + 1)
    else if s[i] == '"' || s[i] == '\'' then
      var end := QuoteEnd(s, s[i], i + 1, false);
      if end < 0 then Broken else Literal(end)
    else Code(i + 1)
  }

  predicate IsBlank(c: char) { c == ' ' || c == '\n' }

  function Blanked(c: char): char { if c == '\n' then c else ' ' }

  /** A comment with every character but newlines replaced by a blank. */
  function Blanks(s: string): (t: string)
    ensures |t| == |s| && forall k :: 0 <= k < |s| ==> t[k] == Blanked(s[k])
  {
    seq(|s|, k requires 0 <= k < |s| => Blanked(s[k]))
  }

  /** The text from a cut on, with comments blanked. */
  function Strip(s: string, i: nat): (t: Option<string>)
    requires i <= |s|
    ensures t.Some? ==> |t.value| == |s| - i
    decreases |s| - i
  {
    if i == |s| then Some("")
    else
      var piece := Scan(s, i);
      if piece.Broken? then None
      else Prepend(Shown(piece, s, i), Strip(s, piece.end))
  }

  /** How a piece appears in the stripped text. */
  function Shown(piece: Piece, s: string, i: nat): (t: string)
    requires !piece.Broken? && i <= piece.end <= |s|
    ensures |t| == piece.end - i
  {
    var here := s[i..piece.end];
    if piece.Comment? then Blanks(here) else here
  }

  function Prepend(head: string, tail: Option<string>): Option<string> {
    if tail.None? then None else Some(head + tail.value)
  }

  lemma PrependTwice(a: string, b: string, tail: Option<string>)
    ensures Prepend(a, Prepend(b, tail)) == Prepend(a + b, tail)
    ensures Prepend("", tail) == tail
  {
    if tail.Some? {
      assert a + (b + tail.value) == (a + b) + tail.value;
      assert "" + tail.value == tail.value;
    }
  }

  /** The depth after a code character. */
  function Turn(c: char, depth: int, left: char, right: char): int {
    if c == left then depth + 1 else if c == right then depth - 1 else depth
  }

  /** Where the delimiter that brings the depth back to zero stands, scanning from a cut. */
  function Close(s: string, i: nat, depth: int, left: char, right: char): (r: Option<nat>)
    requires i <= |s|
    ensures r.Some? ==> i <= r.value < |s| && s[r.value] == right
    decreases |s| - i
  {
    if i == |s| then None
    else
      var piece := Scan(s, i);
      if piece.Broken? then None
      else if !piece.Code? then Close(s, piece.end, depth, left, right)
      else if s[i] != left && s[i] == right && depth == 1 then Some(i)
      else Close(s, piece.end, Turn(s[i], depth, left, right), left, right)
  }

  /** The matching delimiter of an opening one. */
  function Block(s: string, opening: nat, left: char, right: char): (r: Option<nat>)
  {
    if opening >= |s| || s[opening] != left then None else Close(s, opening, 0, left, right)
  }

  /** A position the scan from cut i reaches as a code character. */
  predicate CodeAt(s: string, i: nat, p: nat)
    requires i <= |s|
    decreases |s| - i
  {
    i < |s| && i <= p && !Scan(s, i).Broken? &&
    if i == p then Scan(s, i).Code? else CodeAt(s, Scan(s, i).end, p)
  }

  // ---- the loops ----------------------------------------------------------

  /** `_skip_go_literal_or_comment`: past a comment or literal, or in place at a code character. */
  method SkipLiteralOrComment(source: string, index: nat) returns (r: Option<nat>)
    requires index < |source|
    ensures r == match Scan(source, index)
                 case Broken => None
                 case Code(_) => Some(index)
                 case Literal(end) => Some(end)
                 case Comment(end) => Some(end)
  {
    if LineComment(source, index) {
      var newline := Find(source, '\n', index + 2);
      return Some(if newline < 0 then |source| else newline);
    }
    if BlockComment(source, index) {
      var end := FindClose(source, index + 2);
      if end < 0 { return None; }
      return Some(end + 2);
    }
    var quote := source[index];
    if quote == '`' {
      var end := Find(source, '`', index + 1);
      if end < 0 { return None; }
      return Some(end + 1);
    }
    if quote != '"' && quote != '\'' { return Some(index); }
    var escaped := false;
    var cursor := index + 1;
    while cursor < |source|
      invariant index < cursor <= |source|
      invariant QuoteEnd(source, quote, cursor, escaped) == QuoteEnd(source, quote, index + 1, false)
    {
      var c := source[cursor];
      if escaped {
        escaped := false;
      } else if c == '\\' {
        escaped := true;
      } else if c == quote {
        return Some(cursor + 1);
      }
      cursor := cursor + 1;
    }
    return None;
  }

  /** `_balanced_go_block`. */
  method BalancedBlock(source: string, opening: nat, left: char, right: char) returns (r: Option<nat>)
    ensures r == Block(source, opening, left, right)
  {
    hide Find, FindClose, QuoteEnd;
    if opening >= |source| || source[opening] != left { return None; }
    var depth := 0;
    var cursor := opening;
    while cursor < |source|
      invariant opening <= cursor <= |source|
      invariant Close(source, cursor, depth, left, right) == Close(source, opening, 0, left, right)
    {
      if LineComment(source, cursor) || BlockComment(source, cursor) || source[cursor] in {'`', '"', '\''} {
        var next := SkipLiteralOrComment(source, cursor);
        if next.None? { return None; }
        cursor := next.value;
      } else {
        if source[cursor] == left {
          depth := depth + 1;
        } else if source[cursor] == right {
          depth := depth - 1;
          if depth == 0 { return Some(cursor); }
        }
        cursor := cursor + 1;
      }
    }
    return None;
  }

  /** `_strip_go_comments`: overwrites the comments of a character list in place. */
  method StripComments(source: string) returns (r: Option<string>)
    ensures r == Strip(source, 0)
  {
    hide Find, FindClose, QuoteEnd, Blanks, Prepend;
    var chars := new char[|source|](i requires 0 <= i < |source| => source[i]);
    assert chars[..] == source;
    var cursor := 0;
    PrependTwice("", "", Strip(source, 0));
    while cursor < |source|
      invariant 0 <= cursor <= |source|
      invariant forall k :: cursor <= k < |source| ==> chars[k] == source[k]
      invariant Strip(source, 0) == Prepend(chars[..cursor], Strip(source, cursor))
    {
      ghost var before := chars[..cursor];
      ghost var start := cursor;
      ghost var piece := Scan(source, cursor);
      if LineComment(source, cursor) || BlockComment(source, cursor) {
        var end := SkipLiteralOrComment(source, cursor);
        if end.None? {
          PrependNone(before);
          return None;
        }
        BlankOut(chars, cursor, end.value);
        cursor := end.value;
      } else if source[cursor] in {'`', '"', '\''} {
        var end := SkipLiteralOrComment(source, cursor);
        if end.None? {
          PrependNone(before);
          return None;
        }
        cursor := end.value;
      } else {
        cursor := cursor + 1;
      }
      assert chars[..cursor] == before + Shown(piece, source, start);
      PrependTwice(before, Shown(piece, source, start), Strip(source, cursor));
    }
    PrependEmpty(chars[..]);
    assert chars[..cursor] == chars[..];
    return Some(chars[..]);
  }

  lemma PrependNone(head: string)
    ensures Prepend(head, None) == None
  {}

  lemma PrependEmpty(head: string)
    ensures Prepend(head, Some("")) == Some(head)
  {
    assert head + "" == head;
  }

  /** The inner loop: blanks for everything but newlines. */
  method BlankOut(chars: array<char>, from: nat, end: nat)
    requires from <= end <= chars.Length
    modifies chars
    ensures forall k :: 0 <= k < chars.Length ==>
      chars[k] == if from <= k < end then Blanked(old(chars[k])) else old(chars[k])
  {
    for index := from to end
      invariant forall k :: 0 <= k < chars.Length ==>
        chars[k] == if from <= k < index then Blanked(old(chars[k])) else old(chars[k])
    {
      if chars[index] != '\n' {
        chars[index] := ' ';
      }
    }
  }
}
