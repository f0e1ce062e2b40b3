/** Firewall rules as values: normalising a request, printing it as iptables arguments, reading it back,
    what the printed arguments match, and the guard in front of the management path. */
module FirewallRule {
  import opened Text
  import opened Base64Url
  import opened Network
  import opened NetworkText

  const CHAIN := "HSERVER-INPUT"
  const ANYWHERE := "0.0.0.0/0"

  /** Comments are byte strings; every other field is text. */
  datatype Rule = Rule(id: string, action: string, protocol: string, port: int, source: string, comment: seq<Byte>)

  predicate KnownAction(s: string) { s == "ACCEPT" || s == "DROP" }

  predicate KnownProtocol(s: string) { s == "tcp" || s == "udp" || s == "all" }

  predicate PlainComment(c: seq<Byte>) {
    |c| <= 80 && 10 !in c && 13 !in c && 0 !in c
  }

  predicate PortFits(protocol: string, port: int) {
    if protocol == "all" then port == 0 else 0 <= port <= 65535
  }

  /** `normalizeFirewallRule`; `None` is the one error it knows. */
  function Normalize(rule: Rule): Option<Rule> {
    if !KnownAction(rule.action) || !KnownProtocol(rule.protocol) then None
    else if !PortFits(rule.protocol, rule.port) || !PlainComment(rule.comment) then None
    else
      var trimmed := TrimSpace(rule.source);
      match NormalizeNetwork(if trimmed == "" then ANYWHERE else trimmed)
      case None => None
      case Some(text) => Some(rule.(source := text))
  }

  /** What every normalised rule satisfies. */
  ghost predicate Normal(rule: Rule) {
    && KnownAction(rule.action) && KnownProtocol(rule.protocol)
    && PortFits(rule.protocol, rule.port) && PlainComment(rule.comment)
    && CanonicalSource(rule.source)
  }

  /** A printed IPv4 block, or what is left of a mapped network under a short prefix. */
  ghost predicate CanonicalSource(text: string) {
    || (exists b: Block :: b.Valid() && text == ShowBlock(b))
    || (exists n: nat :: n < 96 && text == ShortText(n))
  }

  /** The IPv4 block a normalised rule applies to; the short form overlaps none. */
  function Source(rule: Rule): Option<Block> { ParseBlock(rule.source) }

  lemma NormalizeIsNormal(rule: Rule)
    requires Normalize(rule).Some?
    ensures Normal(Normalize(rule).value)
    ensures Normalize(rule).value == rule.(source := Normalize(rule).value.source)
  {
    var trimmed := TrimSpace(rule.source);
    hide NormalizeNetwork, Denotes, ShowBlock, ShortText, ParseBlock, TrimSpace, Kept;
    NormalizeMeaning(if trimmed == "" then ANYWHERE else trimmed);
  }

  lemma PrintedDenotes(b: Block)
    requires b.Valid()
    ensures NormalizeNetwork(ShowBlock(b)).Some?
  {
    FourIsStable(b);
    hide NormalizeNetwork, ShowBlock;
  }

  lemma AnywhereDenotes(text: string)
    requires text == "0.0.0.0/0"
    ensures NormalizeNetwork(text).Some?
  {
    DefaultText();
    WholeContains(0);
    hide NormalizeNetwork, ShowBlock;
    PrintedDenotes(WHOLE);
  }

  /** A source text that is acceptable: none, or one that denotes a network. */
  predicate SourceFits(source: string) {
    TrimSpace(source) == "" || Denotes(TrimSpace(source)).Some?
  }

  lemma SourceFitsIff(source: string)
    ensures var trimmed := TrimSpace(source);
      NormalizeNetwork(if trimmed == "" then ANYWHERE else trimmed).Some? <==> SourceFits(source)
  {
    AnywhereDenotes(ANYWHERE);
    var trimmed := TrimSpace(source);
    NormalizeMeaning(trimmed);
    hide NormalizeNetwork, Denotes, TrimSpace, ShowNetwork, Kept, ParseBlock;
  }

  /** Exactly which requests are accepted. */
  lemma NormalizeAcceptsIff(rule: Rule)
    ensures Normalize(rule).Some? <==>
      && rule.action in {"ACCEPT", "DROP"} && rule.protocol in {"tcp", "udp", "all"}
      && (if rule.protocol == "all" then rule.port == 0 else 0 <= rule.port <= 65535)
      && |rule.comment| <= 80 && (forall b :: b in rule.comment ==> b != 10 && b != 13 && b != 0)
      && SourceFits(rule.source)
  {
    SourceFitsIff(rule.source);
    hide NormalizeNetwork, TrimSpace, SourceFits;
  }

  /** The block of an accepted rule is the one its source text denotes; a mapped network under a short prefix is
      accepted as well and denotes none. */
  lemma NormalizedSource(rule: Rule)
    requires Normalize(rule).Some?
    ensures var trimmed := TrimSpace(rule.source);
      var d := Denotes(if trimmed == "" then ANYWHERE else trimmed);
      d.Some? && Source(Normalize(rule).value) == if d.value.Four? then Some(d.value.block) else None
  {
    var trimmed := TrimSpace(rule.source);
    hide NormalizeNetwork, Denotes, ShowBlock, ShortText, ParseBlock, TrimSpace, Kept;
    var raw := if trimmed == "" then ANYWHERE else trimmed;
    NormalizeMeaning(raw);
    if Denotes(raw).value.Short? { ShortIsNotFour(Denotes(raw).value.length); }
  }

  /** Normalising a rule about an IPv4 block again changes nothing. */
  lemma NormalizeStable(rule: Rule)
    requires Normal(rule) && Source(rule).Some?
    ensures Normalize(rule) == Some(rule)
  {
    hide NormalizeNetwork, ParseBlock, ShowBlock, ShortText, TrimSpace;
    if exists n: nat :: n < 96 && rule.source == ShortText(n) {
      var n: nat :| n < 96 && rule.source == ShortText(n);
      ShortIsNotFour(n);
    }
    var b: Block :| b.Valid() && rule.source == ShowBlock(b);
    ShowBlockChars(b);
    TrimIdle(rule.source);
    FourIsStable(b);
  }

  // ---- argument vectors ---------------------------------------------------

  type Args = seq<string>

  predicate HexLower(c: char) { '0' <= c <= '9' || 'a' <= c <= 'f' }

  /** `^fw-[a-f0-9]{12}$`. */
  predicate RuleId(id: string) {
    |id| == 15 && id[..3] == "fw-" && forall i :: 3 <= i < 15 ==> HexLower(id[i])
  }

  function Note(rule: Rule): string { "hserver:" + rule.id + ":" + Encode(rule.comment) }

  /** The rule's own arguments, defaults left out. */
  function Options(rule: Rule): Args {
    (if rule.source != ANYWHERE then ["-s", rule.source] else []) +
    ((if rule.protocol != "all" then ["-p", rule.protocol] else []) +
     ((if rule.port != 0 then ["--dport", PortText(rule.port)] else []) +
      ["-m", "comment", "--comment", Note(rule), "-j", rule.action]))
  }

  function PortText(port: int): string {
    if port < 0 then "-" + Decimal(-port) else Decimal(port)
  }

  /** `firewallAppendArgs`. */
  function AppendArgs(rule: Rule): Args { ["-A", CHAIN] + Options(rule) }

  function TrimQuotes(s: string): string {
    TrimQuotesRight(TrimQuotesLeft(s))
  }

  predicate Quote(c: char) { c == '"' || c == '\'' }

  function TrimQuotesLeft(s: string): string {
    if s != "" && Quote(s[0]) then TrimQuotesLeft(s[1..]) else s
  }

  function TrimQuotesRight(s: string): string {
    if s != "" && Quote(s[|s| - 1]) then TrimQuotesRight(s[..|s| - 1]) else s
  }

  /** The value after the first occurrence of a key, at any position, with quotes trimmed off. */
  function ArgAfter(args: Args, key: string): string {
    if |args| < 2 then ""
    else if args[0] == key then TrimQuotes(args[1])
    else ArgAfter(args[1..], key)
  }

  /** `argAfter`: the scan itself. */
  method FindArg(args: Args, key: string) returns (value: string)
    ensures value == ArgAfter(args, key)
  {
    var index := 0;
    while index + 1 < |args|
      invariant 0 <= index <= |args|
      invariant ArgAfter(args, key) == ArgAfter(args[index..], key)
    {
      if args[index] == key {
        return TrimQuotes(args[index + 1]);
      }
      assert args[index..][1..] == args[index + 1..];
      index := index + 1;
    }
    return "";
  }

  function OrDefault(value: string, fallback: string): string {
    if value == "" then fallback else value
  }

  /** `strings.SplitN` on ':' with a limit of three. */
  function SplitThree(s: string): seq<string> {
    var parts := SplitOn(s, ':');
    if |parts| <= 3 then parts else [parts[0], parts[1], JoinWith(parts[2..], ':')]
  }

  /** `parseManagedFirewallRule`. */
  function ParseManaged(line: string): Option<Rule> {
    var args := Fields(line);
    var parts := SplitThree(ArgAfter(args, "--comment"));
    if |parts| != 3 || parts[0] != "hserver" || !RuleId(parts[1]) then None
    else Some(Rule(parts[1], ArgAfter(args, "-j"), OrDefault(ArgAfter(args, "-p"), "all"),
                   Atoi(ArgAfter(args, "--dport")), OrDefault(ArgAfter(args, "-s"), ANYWHERE), Decode(parts[2])))
  }

  // ---- the round trip -----------------------------------------------------

  lemma TrimPlain(s: string)
    requires s != "" ==> !Quote(s[0]) && !Quote(s[|s| - 1])
    ensures TrimQuotes(s) == s
  {}

  lemma ArgHit(key: string, value: string, rest: Args)
    ensures ArgAfter([key, value] + rest, key) == TrimQuotes(value)
  {}

  lemma ArgMiss(k: string, v: string, rest: Args, key: string)
    requires k != key && v != key
    ensures ArgAfter([k, v] + rest, key) == ArgAfter(rest, key)
  {
    var args := [k, v] + rest;
    assert args[1..] == [v] + rest;
    assert args[1..][1..] == rest;
  }

  /** A value that cannot be taken for an option. */
  predicate Plain(s: string) {
    s != "" && s[0] != '-' && !Quote(s[0]) && !Quote(s[|s| - 1]) && SpaceFree(s)
  }

  lemma SourcePlain(text: string)
    requires CanonicalSource(text)
    ensures Plain(text)
  {
    hide ShowBlock, Mask, Decimal, ShortText;
    if exists b: Block :: b.Valid() && text == ShowBlock(b) {
      var b: Block :| b.Valid() && text == ShowBlock(b);
      ShowBlockChars(b);
    } else {
      var n: nat :| n < 96 && text == ShortText(n);
      ShortPlain(n);
    }
  }

  lemma ShortPlain(n: nat)
    requires n < 96
    ensures Plain(ShortText(n))
  {
    ShortHead(n);
    hide Decimal, ShortText;
    var text, tail := ShortText(n), Decimal(n);
    var head := text[..|text| - |tail| - 1];
    assert SpaceFree(head) && SpaceFree(tail);
    assert text[0] == ':' && text[|text| - 1] == tail[|tail| - 1] && IsDigit(tail[|tail| - 1]);
    assert text == head + "/" + tail;
  }

  lemma PortPlain(port: nat)
    requires port <= 65535
    ensures Plain(PortText(port)) && Atoi(PortText(port)) == port
  {
    hide Decimal, Atoi;
    AtoiDecimal(port);
    assert IsDigit(Decimal(port)[0]);
  }

  lemma NamesPlain()
    ensures Plain("tcp") && Plain("udp") && Plain("all") && Plain("ACCEPT") && Plain("DROP")
  {}

  lemma NormalParts(rule: Rule)
    requires Normal(rule)
    ensures Plain(rule.source) && Plain(rule.protocol) && Plain(rule.action)
    ensures Plain(PortText(rule.port)) && Atoi(PortText(rule.port)) == rule.port
  {
    hide CanonicalSource, Plain, Atoi, PortText;
    SourcePlain(rule.source);
    NamesPlain();
    PortPlain(rule.port);
  }

  lemma NotePlain(rule: Rule)
    requires RuleId(rule.id)
    ensures Plain(Note(rule)) && SplitThree(Note(rule)) == ["hserver", rule.id, Encode(rule.comment)]
  {
    hide Encode, SplitOn, JoinWith;
    var id, body := rule.id, Encode(rule.comment);
    assert Note(rule) == "hserver" + [':'] + (id + [':'] + body);
    assert ':' !in id by { assert id == id[..3] + id[3..]; }
    SplitFirst("hserver", id + [':'] + body, ':');
    SplitFirst(id, body, ':');
    SplitWhole(body, ':');
    assert SpaceFree(id) by { assert id == id[..3] + id[3..]; }
    assert SpaceFree(body);
  }

  /** What each key finds in the printed options. */
  lemma OptionValues(rule: Rule)
    requires Normal(rule) && RuleId(rule.id)
    ensures Tokens(Options(rule))
    ensures ArgAfter(AppendArgs(rule), "--comment") == Note(rule)
    ensures ArgAfter(AppendArgs(rule), "-j") == rule.action
    ensures OrDefault(ArgAfter(AppendArgs(rule), "-s"), ANYWHERE) == rule.source
    ensures OrDefault(ArgAfter(AppendArgs(rule), "-p"), "all") == rule.protocol
    ensures Atoi(ArgAfter(AppendArgs(rule), "--dport")) == rule.port
  {
    hide Normal, ArgAfter, Note, PortText, SplitThree, Digits, DigitsValue;
    NormalParts(rule);
    NotePlain(rule);
    OptionTokens(rule);
    forall key | key in {"--comment", "-j", "-s", "-p", "--dport"}
      ensures ArgAfter(AppendArgs(rule), key) == ArgAfter(Options(rule), key)
    {
      ArgMiss("-A", CHAIN, Options(rule), key);
    }
    Value(rule, "--comment");
    Value(rule, "-j");
    Value(rule, "-s");
    Value(rule, "-p");
    Value(rule, "--dport");
  }

  lemma OptionTokens(rule: Rule)
    requires Plain(rule.source) && Plain(rule.protocol) && Plain(rule.action)
    requires Plain(PortText(rule.port)) && Plain(Note(rule))
    ensures Tokens(Options(rule))
  {
    hide Note, PortText, IsSpace, SpaceFree;
    WordTokens();
    var tail := ["-m", "comment", "--comment", Note(rule), "-j", rule.action];
    assert Tokens(tail);
    assert Tokens(["-s", rule.source]) && Tokens(["-p", rule.protocol]) && Tokens(["--dport", PortText(rule.port)]);
  }

  lemma WordTokens()
    ensures Token("-A") && Token(CHAIN) && Token("-s") && Token("-p") && Token("--dport")
    ensures Token("-m") && Token("comment") && Token("--comment") && Token("-j")
    ensures Plain("comment")
  {}

  /** The three leading optional pairs, then the fixed tail. */
  lemma Value(rule: Rule, key: string)
    requires Plain(rule.source) && Plain(rule.protocol) && Plain(rule.action)
    requires Plain(PortText(rule.port)) && Plain(Note(rule))
    requires key in {"--comment", "-j", "-s", "-p", "--dport"}
    ensures ArgAfter(Options(rule), key) ==
      if key == "-s" then (if rule.source != ANYWHERE then rule.source else "")
      else if key == "-p" then (if rule.protocol != "all" then rule.protocol else "")
      else if key == "--dport" then (if rule.port != 0 then PortText(rule.port) else "")
      else if key == "--comment" then Note(rule)
      else rule.action
  {
    var tail := ["-m", "comment", "--comment", Note(rule), "-j", rule.action];
    var ported := (if rule.port != 0 then ["--dport", PortText(rule.port)] else []) + tail;
    var typed := (if rule.protocol != "all" then ["-p", rule.protocol] else []) + ported;
    PairValue("-s", rule.source, rule.source != ANYWHERE, typed, key);
    PairValue("-p", rule.protocol, rule.protocol != "all", ported, key);
    PairValue("--dport", PortText(rule.port), rule.port != 0, tail, key);
    TailValue(Note(rule), rule.action, key);
  }

  lemma PairValue(k: string, v: string, present: bool, rest: Args, key: string)
    requires Plain(v) && key != "" && key[0] == '-'
    ensures ArgAfter((if present then [k, v] else []) + rest, key) ==
            if present && k == key then v else ArgAfter(rest, key)
  {
    if present {
      if k == key {
        ArgHit(k, v, rest);
        TrimPlain(v);
      } else {
        ArgMiss(k, v, rest, key);
      }
    } else {
      assert [] + rest == rest;
    }
  }

  lemma TailValue(note: string, action: string, key: string)
    requires Plain(note) && Plain(action) && key in {"--comment", "-j", "-s", "-p", "--dport"}
    ensures ArgAfter(["-m", "comment", "--comment", note, "-j", action], key) ==
            if key == "--comment" then note else if key == "-j" then action else ""
  {
    PairValue("-j", action, true, [], key);
    assert ["-j", action] + [] == ["-j", action];
    PairValue("--comment", note, true, ["-j", action], key);
    assert ["--comment", note] + ["-j", action] == ["--comment", note, "-j", action];
    PairValue("-m", "comment", true, ["--comment", note, "-j", action], key);
    assert ["-m", "comment"] + ["--comment", note, "-j", action] == ["-m", "comment", "--comment", note, "-j", action];
  }

  /** Parsing the joined append arguments of a normalised rule gives the rule back. */
  lemma ParsePrinted(rule: Rule)
    requires Normal(rule) && RuleId(rule.id)
    ensures ParseManaged(JoinWith(AppendArgs(rule), ' ')) == Some(rule)
  {
    hide Normal, ArgAfter, Note, Fields, JoinWith, Atoi, SplitThree, Options, Decode, RuleId;
    OptionValues(rule);
    WordTokens();
    FieldsJoin(AppendArgs(rule));
    NotePlain(rule);
    DecodeEncode(rule.comment);
  }

  // ---- what the arguments match ------------------------------------------

  datatype Packet = Packet(source: Address, protocol: string, port: nat)

  /** One option as the packet filter reads it; a source it cannot read matches nothing. */
  predicate Condition(key: string, value: string, p: Packet) {
    if key == "-s" then ParseBlock(value).Some? && ParseBlock(value).value.Contains(p.source)
    else if key == "-p" then value == p.protocol
    else if key == "--dport" then Atoi(value) == p.port
    else true
  }

  /** The packet filter reads options pair by pair and wants all of them. */
  predicate Matches(options: Args, p: Packet) {
    |options| < 2 || (Condition(options[0], options[1], p) && Matches(options[2..], p))
  }

  function Target(options: Args): string {
    if |options| < 2 then ""
    else if options[0] == "-j" then options[1]
    else Target(options[2..])
  }

  lemma MatchPair(k: string, v: string, present: bool, rest: Args, p: Packet)
    ensures Matches((if present then [k, v] else []) + rest, p) <==>
        (present ==> Condition(k, v, p)) && Matches(rest, p)
    ensures k != "-j" ==> Target((if present then [k, v] else []) + rest) == Target(rest)
  {
    if present {
      assert ([k, v] + rest)[2..] == rest;
    } else {
      assert [] + rest == rest;
    }
  }

  /** The printed options match exactly the packets the rule is about. */
  lemma MatchesMeaning(rule: Rule, p: Packet)
    requires Normal(rule)
    ensures Matches(Options(rule), p) <==>
      && Source(rule).Some? && Source(rule).value.Contains(p.source)
      && (rule.protocol == "all" || rule.protocol == p.protocol)
      && (rule.port == 0 || rule.port == p.port)
    ensures Target(Options(rule)) == rule.action
  {
    hide Mask, ParseBlock, Atoi, PortText, Note, Normal;
    NormalParts(rule);
    DefaultSource(ANYWHERE);
    WholeContains(p.source);
    var tail := ["-m", "comment", "--comment", Note(rule), "-j", rule.action];
    var ported := (if rule.port != 0 then ["--dport", PortText(rule.port)] else []) + tail;
    var typed := (if rule.protocol != "all" then ["-p", rule.protocol] else []) + ported;
    MatchPair("-s", rule.source, rule.source != ANYWHERE, typed, p);
    MatchPair("-p", rule.protocol, rule.protocol != "all", ported, p);
    MatchPair("--dport", PortText(rule.port), rule.port != 0, tail, p);
    MatchTail(Note(rule), rule.action, p);
  }

  lemma MatchTail(note: string, action: string, p: Packet)
    ensures Matches(["-m", "comment", "--comment", note, "-j", action], p)
    ensures Target(["-m", "comment", "--comment", note, "-j", action]) == action
  {
    hide Condition;
    var last, middle := ["-j", action], ["--comment", note, "-j", action];
    assert last[2..] == [] && middle[2..] == last;
    assert Condition("-j", action, p) && Condition("--comment", note, p) && Condition("-m", "comment", p) by {
      TailConditions(note, action, p);
    }
    assert Matches(last, p) && Target(last) == action;
    assert Matches(middle, p) && Target(middle) == action;
    assert ["-m", "comment", "--comment", note, "-j", action][2..] == middle;
  }

  lemma TailConditions(note: string, action: string, p: Packet)
    ensures Condition("-j", action, p) && Condition("--comment", note, p) && Condition("-m", "comment", p)
  {}

  // ---- the guard ----------------------------------------------------------

  datatype Guard = Guard(sources: seq<Block>, ports: set<int>) {
    predicate Valid() {
      && (forall i :: 0 <= i < |sources| ==> sources[i].Valid())
      && (forall port :: port in ports ==> 1 <= port <= 65535)
    }

    /** A packet on the management path. */
    predicate Protects(p: Packet) {
      p.port in ports && exists i :: 0 <= i < |sources| && sources[i].Contains(p.source)
    }
  }

  /** `blocksProtectedPath`. */
  predicate Blocks(guard: Guard, rule: Rule) {
    && rule.action == "DROP" && guard.sources != [] && guard.ports != {}
    && (rule.port != 0 ==> rule.port in guard.ports)
    && Source(rule).Some?
    && exists i :: 0 <= i < |guard.sources| && Overlap(Source(rule).value, guard.sources[i])
  }

  lemma BlockedPacket(guard: Guard, rule: Rule) returns (p: Packet)
    requires guard.Valid() && Normal(rule) && Blocks(guard, rule)
    ensures guard.Protects(p) && Matches(Options(rule), p)
  {
    hide Matches, Options, ParseBlock, Mask, Overlap, ShowBlock;
    var source := Source(rule).value;
    var i :| 0 <= i < |guard.sources| && Overlap(source, guard.sources[i]);
    OverlapIffShared(source, guard.sources[i]);
    var a: Address :| source.Contains(a) && guard.sources[i].Contains(a);
    var some := Member(guard.ports);
    var port := if rule.port != 0 then rule.port else some;
    p := Packet(a, rule.protocol, port);
    MatchesMeaning(rule, p);
  }

  lemma UnblockedPacket(guard: Guard, rule: Rule, p: Packet)
    requires guard.Valid() && Normal(rule) && !Blocks(guard, rule)
    requires rule.action == "DROP" && guard.Protects(p)
    ensures !Matches(Options(rule), p)
  {
    hide Matches, Options, ParseBlock, Mask, Overlap, ShowBlock;
    MatchesMeaning(rule, p);
    if Matches(Options(rule), p) {
      var source := Source(rule).value;
      var i :| 0 <= i < |guard.sources| && guard.sources[i].Contains(p.source);
      SharedAddressOverlaps(source, guard.sources[i], p.source);
    }
  }

  /** The guard refuses a normalised DROP rule exactly when some management packet would be dropped by it. */
  lemma GuardIsExact(guard: Guard, rule: Rule)
    requires guard.Valid() && Normal(rule)
    ensures Blocks(guard, rule) <==>
      rule.action == "DROP" && exists p: Packet :: guard.Protects(p) && Matches(Options(rule), p)
  {
    if Blocks(guard, rule) {
      var p := BlockedPacket(guard, rule);
    } else if rule.action == "DROP" {
      forall p: Packet | guard.Protects(p)
        ensures !Matches(Options(rule), p)
      {
        UnblockedPacket(guard, rule, p);
      }
    }
  }

  // ---- configuration of the guard ----------------------------------------

  /** `parseFirewallSources`: fails exactly on more than 32 entries or one that denotes nothing; otherwise the
      normalised texts, each once. */
  method ParseSources(raw: string) returns (result: Option<seq<string>>)
    ensures raw == "" ==> result == Some([])
    ensures raw != "" ==>
      var parts := SplitOn(raw, ',');
      && (result.None? <==> |parts| > 32 || exists i :: 0 <= i < |parts| && Denotes(TrimSpace(parts[i])).None?)
      && (result.Some? ==> Listed(parts, result.value))
  {
    hide Normalized, Denotes, TrimSpace, SplitOn, Listed;
    if raw == "" { return Some([]); }
    var parts := SplitOn(raw, ',');
    if |parts| > 32 { return None; }
    var seen: set<string> := {};
    var found: seq<string> := [];
    assert parts[..0] == [] && Listed([], []) by { NoneListed(); }
    for n := 0 to |parts|
      invariant forall i :: 0 <= i < n ==> Denotes(TrimSpace(parts[i])).Some?
      invariant Listed(parts[..n], found)
      invariant forall text :: text in seen <==> text in found
    {
      var text := Normalized(parts[n]);
      NormalizedIff(parts[n]);
      if text.None? { return None; }
      ListedStep(parts[..n], parts[n], found);
      assert parts[..n] + [parts[n]] == parts[..n + 1];
      if text.value !in seen {
        seen := seen + {text.value};
        found := found + [text.value];
      }
    }
    assert parts[..|parts|] == parts;
    return Some(found);
  }

  /** The normalised texts of the entries, without repetition. */
  ghost predicate Listed(parts: seq<string>, texts: seq<string>) {
    && (forall i :: 0 <= i < |parts| ==> Normalized(parts[i]).Some? && Normalized(parts[i]).value in texts)
    && (forall text :: text in texts ==> exists i :: 0 <= i < |parts| && Normalized(parts[i]) == Some(text))
    && Distinct(texts)
  }

  function Normalized(part: string): Option<string> { NormalizeNetwork(TrimSpace(part)) }

  lemma NormalizedIff(part: string)
    ensures Normalized(part).None? <==> Denotes(TrimSpace(part)).None?
  {
    NormalizeMeaning(TrimSpace(part));
    hide NormalizeNetwork, Denotes, TrimSpace;
  }

  lemma NoneListed()
    ensures Listed([], [])
  {}

  lemma ListedStep(parts: seq<string>, part: string, texts: seq<string>)
    requires Listed(parts, texts) && Normalized(part).Some?
    ensures var text := Normalized(part).value;
      Listed(parts + [part], if text in texts then texts else texts + [text])
  {
    hide Normalized;
    var more, text := parts + [part], Normalized(part).value;
    var after := if text in texts then texts else texts + [text];
    assert more[|parts|] == part && text in after;
    forall t | t in after ensures exists i :: 0 <= i < |more| && Normalized(more[i]) == Some(t) {
      if t in texts {
        var i :| 0 <= i < |parts| && Normalized(parts[i]) == Some(t);
        assert more[i] == parts[i];
      }
    }
  }

  /** The constructor of the controller: the networks of the texts that are IPv4 blocks. */
  method GuardSources(texts: seq<string>) returns (networks: seq<Block>)
    ensures forall b :: b in networks <==> exists i :: 0 <= i < |texts| && Kept(texts[i]) == Some(b)
    ensures forall b :: b in networks ==> b.Valid()
  {
    hide Kept;
    networks := [];
    for n := 0 to |texts|
      invariant forall b :: b in networks <==> exists i :: 0 <= i < n && Kept(texts[i]) == Some(b)
      invariant forall b :: b in networks ==> b.Valid()
    {
      var kept := Kept(texts[n]);
      if kept.Some? {
        KeptIsValid(texts[n]);
        networks := networks + [kept.value];
      }
    }
  }

  /** An accepted configuration protects exactly the blocks its entries denote; an entry is left out, without an error,
      exactly when it is a mapped network with a prefix below 96. */
  lemma ConfiguredGuard(parts: seq<string>, texts: seq<string>, networks: seq<Block>)
    requires Listed(parts, texts)
    requires forall b :: b in networks <==> exists i :: 0 <= i < |texts| && Kept(texts[i]) == Some(b)
    ensures forall i :: 0 <= i < |parts| ==> Denotes(TrimSpace(parts[i])).Some?
    ensures forall b :: b in networks <==> exists i :: 0 <= i < |parts| && Denotes(TrimSpace(parts[i])) == Some(Four(b))
    ensures forall i :: 0 <= i < |parts| ==>
      (Kept(Normalized(parts[i]).value).None? <==> Denotes(TrimSpace(parts[i])).value.Short?)
  {
    hide Kept, Denotes, TrimSpace, NormalizeNetwork, ShowNetwork, ParseBlock;
    forall i | 0 <= i < |parts|
      ensures Denotes(TrimSpace(parts[i])).Some?
      ensures Kept(Normalized(parts[i]).value) ==
        if Denotes(TrimSpace(parts[i])).value.Four? then Some(Denotes(TrimSpace(parts[i])).value.block) else None
    {
      NormalizeMeaning(TrimSpace(parts[i]));
    }
    forall b | b in networks
      ensures exists i :: 0 <= i < |parts| && Denotes(TrimSpace(parts[i])) == Some(Four(b))
    {
      var k :| 0 <= k < |texts| && Kept(texts[k]) == Some(b);
      assert texts[k] in texts;
      var i :| 0 <= i < |parts| && Normalized(parts[i]) == Some(texts[k]);
    }
    forall b, i | 0 <= i < |parts| && Denotes(TrimSpace(parts[i])) == Some(Four(b))
      ensures b in networks
    {
      assert Normalized(parts[i]).value in texts;
      var k :| 0 <= k < |texts| && texts[k] == Normalized(parts[i]).value;
      assert Kept(texts[k]) == Some(b);
    }
  }

  /** A configuration that is accepted and protects nothing: ::ffff:10.0.0.1/8, or any mapped address under a prefix
      below 96. */
  lemma MappedSourceUnprotected(a: Address, n: nat, texts: seq<string>, networks: seq<Block>)
    requires n < 96 && Listed(SplitOn(MappedText(a, n), ','), texts)
    requires forall b :: b in networks <==> exists i :: 0 <= i < |texts| && Kept(texts[i]) == Some(b)
    ensures SplitOn(MappedText(a, n), ',') == [MappedText(a, n)] &&
        Denotes(TrimSpace(MappedText(a, n))) == Some(Short(n))
    ensures forall b :: b !in networks
  {
    var raw := MappedText(a, n);
    MappedPlain(a, n);
    SplitWhole(raw, ',');
    TrimIdle(raw);
    MappedEntry(a, n);
    hide MappedText, SplitOn, Denotes, TrimSpace, Kept, NormalizeNetwork, Listed;
    ConfiguredGuard([raw], texts, networks);
  }

  lemma MappedPlain(a: Address, n: nat)
    ensures var raw := MappedText(a, n);
      ',' !in raw && raw != "" && !IsSpace(raw[0]) && !IsSpace(raw[|raw| - 1])
  {
    hide ShowAddress, Decimal;
    ShowAddressChars(a);
    var raw := MappedText(a, n);
    assert raw[|raw| - 1] == Decimal(n)[|Decimal(n)| - 1];
    assert forall i :: 0 <= i < |"::ffff:"| ==> "::ffff:"[i] != ',';
  }

  /** `parseFirewallPorts`: exactly the listed ports, all between 1 and 65535. */
  method ParsePorts(raw: string) returns (result: Option<set<int>>)
    ensures raw == "" ==> result == Some({})
    ensures raw != "" ==>
      var parts := SplitOn(raw, ',');
      && (result.None? <==> |parts| > 32 || exists i :: 0 <= i < |parts| && !(1 <= Atoi(TrimSpace(parts[i])) <= 65535))
      && (result.Some? ==> forall port :: port in result.value <==>
            exists i :: 0 <= i < |parts| && port == Atoi(TrimSpace(parts[i])))
  {
    hide Atoi, TrimSpace, SplitOn;
    var ports: set<int> := {};
    if raw == "" { return Some(ports); }
    var parts := SplitOn(raw, ',');
    if |parts| > 32 { return None; }
    for n := 0 to |parts|
      invariant forall i :: 0 <= i < n ==> 1 <= Atoi(TrimSpace(parts[i])) <= 65535
      invariant forall port :: port in ports <==> exists i :: 0 <= i < n && port == Atoi(TrimSpace(parts[i]))
    {
      var port := Atoi(TrimSpace(parts[n]));
      if port < 1 || port > 65535 { return None; }
      ports := ports + {port};
    }
    return Some(ports);
  }
}
