/** The firewall controller: edits of one ordered chain under a revision check, with an undo when saving fails.
    The packet filter is a list of argument vectors that it prints, deletes and inserts verbatim. */
module Firewall {
  import opened Text
  import opened FirewallRule

  /** The managed chain (absent until created), each rule without its leading "-A HSERVER-INPUT", and
      whether INPUT jumps to it. */
  datatype Host = Host(chain: Option<seq<Args>>, attached: bool) {
    function Rules(): seq<Args> { if chain.Some? then chain.value else [] }

    /** Every stored argument is one word, so that a listing can be read back. */
    predicate Readable() { forall i :: 0 <= i < |Rules()| ==> Tokens(Rules()[i]) }
  }

  // ---- the packet filter --------------------------------------------------

  function RemoveFirst<T(==)>(s: seq<T>, x: T): seq<T>
    requires x in s
  {
    if s[0] == x then s[1..] else [s[0]] + RemoveFirst(s[1..], x)
  }

  function InsertAt<T>(s: seq<T>, k: nat, x: T): seq<T>
    requires k <= |s|
  {
    s[..k] + [x] + s[k..]
  }

  /** What one iptables command does; `None` when the tool refuses it. */
  function Exec(host: Host, argv: Args): Option<Host> {
    if argv == ["-N", CHAIN] then
      if host.chain.None? then Some(host.(chain := Some([]))) else None
    else if argv == ["-I", "INPUT", "1", "-j", CHAIN] then
      if host.chain.Some? then Some(host.(attached := true)) else None
    else if |argv| < 2 || argv[1] != CHAIN || host.chain.None? then None
    else
      var rules := host.chain.value;
      if argv[0] == "-A" then Some(host.(chain := Some(rules + [argv[2..]])))
      else if argv[0] == "-D" && argv[2..] in rules then Some(host.(chain := Some(RemoveFirst(rules, argv[2..]))))
      else if argv[0] == "-I" && |argv| > 2 && 1 <= Atoi(argv[2]) <= |rules| + 1 then
        Some(host.(chain := Some(InsertAt(rules, Atoi(argv[2]) - 1, argv[3..]))))
      else None
  }

  /** A command that may also fail for a reason of its own. */
  function Attempt(host: Host, argv: Args, fault: bool): Option<Host> {
    if fault then None else Exec(host, argv)
  }

  function Line(rule: Args): string { JoinWith(["-A", CHAIN] + rule, ' ') }

  function Lines(rules: seq<Args>): seq<string> {
    seq(|rules|, i requires 0 <= i < |rules| => Line(rules[i]))
  }

  /** The text that `-S HSERVER-INPUT` prints. */
  function Listing(rules: seq<Args>): string {
    JoinWith(["-N HSERVER-INPUT"] + Lines(rules) + [""], '\n')
  }

  // ---- reading a listing --------------------------------------------------

  predicate IsRuleLine(args: Args) { |args| >= 2 && args[0] == "-A" && args[1] == CHAIN }

  predicate HasComment(args: Args, prefix: string) { prefix <= ArgAfter(args, "--comment") }

  predicate Managed(rule: Args) { HasComment(["-A", CHAIN] + rule, "hserver:fw-") }

  predicate Carries(rule: Args, id: string) { HasComment(["-A", CHAIN] + rule, "hserver:" + id + ":") }

  /** The argument vectors of the rule lines, in order. */
  function RuleVectors(lines: seq<string>): seq<Args> {
    if lines == [] then []
    else
      var args := Fields(lines[0]);
      (if IsRuleLine(args) then [args] else []) + RuleVectors(lines[1..])
  }

  /** The managed rule lines, in order. */
  function ManagedTexts(lines: seq<string>): seq<string> {
    if lines == [] then []
    else
      var line := TrimSpace(lines[0]);
      var args := Fields(line);
      (if IsRuleLine(args) && HasComment(args, "hserver:fw-") then [line] else []) + ManagedTexts(lines[1..])
  }

  /** The managed lines of a chain, which its revision is computed from. */
  function ManagedLines(rules: seq<Args>): seq<string> {
    if rules == [] then []
    else (if Managed(rules[0]) then [Line(rules[0])] else []) + ManagedLines(rules[1..])
  }

  /** The loop of `managedLines`. */
  method ReadManagedLines(output: string) returns (lines: seq<string>)
    ensures lines == ManagedTexts(SplitOn(output, '\n'))
  {
    hide TrimSpace, Fields, IsRuleLine, HasComment, SplitOn;
    lines := [];
    var raws := SplitOn(output, '\n');
    for n := 0 to |raws|
      invariant ManagedTexts(raws) == lines + ManagedTexts(raws[n..])
    {
      var line := TrimSpace(raws[n]);
      var args := Fields(line);
      assert raws[n..][1..] == raws[n + 1..];
      if IsRuleLine(args) && HasComment(args, "hserver:fw-") {
        lines := lines + [line];
      }
    }
  }

  /** The loop of `Delete`: the first rule line that carries the identifier, and its position counted from one. */
  method FindTarget(output: string, id: string) returns (target: Option<Args>, position: nat)
    ensures var rules := RuleVectors(SplitOn(output, '\n'));
      && (target.None? ==> forall i :: 0 <= i < |rules| ==> !HasComment(rules[i], "hserver:" + id + ":"))
      && (target.Some? ==>
        && 1 <= position <= |rules| && target.value == rules[position - 1]
        && HasComment(rules[position - 1], "hserver:" + id + ":")
        && forall i :: 0 <= i < position - 1 ==> !HasComment(rules[i], "hserver:" + id + ":"))
  {
    hide Fields, IsRuleLine, HasComment, SplitOn;
    var lines := SplitOn(output, '\n');
    ghost var rules := RuleVectors(lines);
    position := 0;
    for n := 0 to |lines|
      invariant position <= |rules| && rules[position..] == RuleVectors(lines[n..])
      invariant forall i :: 0 <= i < position ==> !HasComment(rules[i], "hserver:" + id + ":")
    {
      var args := Fields(lines[n]);
      assert lines[n..][1..] == lines[n + 1..];
      if IsRuleLine(args) {
        assert rules[position] == args;
        assert rules[position..][1..] == rules[position + 1..];
        position := position + 1;
        if HasComment(args, "hserver:" + id + ":") {
          return Some(args), position;
        }
      }
    }
    return None, position;
  }

  lemma LineShape(rule: Args)
    requires Tokens(rule)
    ensures Fields(Line(rule)) == ["-A", CHAIN] + rule && IsRuleLine(Fields(Line(rule)))
    ensures TrimSpace(Line(rule)) == Line(rule)
    ensures '\n' !in Line(rule)
  {
    hide Fields, TrimSpace, JoinWith;
    WordTokens();
    var args := ["-A", CHAIN] + rule;
    FieldsJoin(args);
    JoinedLine(args);
    TrimIdle(Line(rule));
  }

  lemma HeaderShape()
    ensures Fields("-N HSERVER-INPUT") == ["-N", CHAIN] && TrimSpace("-N HSERVER-INPUT") == "-N HSERVER-INPUT"
    ensures Fields("") == [] && TrimSpace("") == ""
  {
    assert Token("-N");
    WordTokens();
    var args := ["-N", CHAIN];
    assert JoinWith(args, ' ') == "-N HSERVER-INPUT" by {
      assert args[1..] == [CHAIN];
      assert "-N" + [' '] + CHAIN == "-N HSERVER-INPUT";
    }
    hide Fields, TrimSpace, JoinWith;
    FieldsJoin(args);
    JoinedLine(args);
    TrimIdle("-N HSERVER-INPUT");
    FieldsBlank("");
    TrimIdle("");
  }

  lemma {:induction false} RuleVectorsOfLines(rules: seq<Args>, rest: seq<string>)
    requires forall i :: 0 <= i < |rules| ==> Tokens(rules[i])
    ensures |RuleVectors(Lines(rules) + rest)| == |rules| + |RuleVectors(rest)|
    ensures forall i :: 0 <= i < |rules| ==> RuleVectors(Lines(rules) + rest)[i] == ["-A", CHAIN] + rules[i]
    ensures ManagedTexts(Lines(rules) + rest) == ManagedLines(rules) + ManagedTexts(rest)
  {
    hide Fields, TrimSpace, Line, IsRuleLine, HasComment, Tokens;
    if rules == [] {
      assert Lines(rules) + rest == rest;
    } else {
      LineShape(rules[0]);
      RuleVectorsOfLines(rules[1..], rest);
      assert (Lines(rules) + rest)[1..] == Lines(rules[1..]) + rest;
    }
  }

  lemma ListingLines(rules: seq<Args>)
    requires forall i :: 0 <= i < |rules| ==> Tokens(rules[i])
    ensures SplitOn(Listing(rules), '\n') == ["-N HSERVER-INPUT"] + (Lines(rules) + [""])
  {
    hide Line, Tokens, SplitOn, JoinWith;
    var parts := ["-N HSERVER-INPUT"] + Lines(rules) + [""];
    assert parts == ["-N HSERVER-INPUT"] + (Lines(rules) + [""]);
    forall i | 0 <= i < |parts| ensures '\n' !in parts[i] {
      if 1 <= i <= |rules| { LineShape(rules[i - 1]); }
    }
    SplitJoin(parts, '\n');
  }

  /** The chain header and the line after the last newline are not rules. */
  lemma SkipHeader(body: seq<string>)
    ensures RuleVectors(["-N HSERVER-INPUT"] + body) == RuleVectors(body)
    ensures ManagedTexts(["-N HSERVER-INPUT"] + body) == ManagedTexts(body)
    ensures RuleVectors([""]) == [] && ManagedTexts([""]) == []
  {
    hide Fields, TrimSpace, HasComment;
    HeaderShape();
    assert (["-N HSERVER-INPUT"] + body)[1..] == body;
    assert [""][1..] == [];
    assert RuleVectors([]) == [] && ManagedTexts([]) == [];
  }

  /** A listing reads back as the chain it prints. */
  lemma ListingReadsBack(rules: seq<Args>)
    requires forall i :: 0 <= i < |rules| ==> Tokens(rules[i])
    ensures var lines := SplitOn(Listing(rules), '\n');
      && |RuleVectors(lines)| == |rules|
      && (forall i :: 0 <= i < |rules| ==> RuleVectors(lines)[i] == ["-A", CHAIN] + rules[i])
      && ManagedTexts(lines) == ManagedLines(rules)
  {
    hide Lines, Tokens, SplitOn, Listing, RuleVectors, ManagedTexts, ManagedLines;
    ListingLines(rules);
    SkipHeader(Lines(rules) + [""]);
    RuleVectorsOfLines(rules, [""]);
  }

  // ---- the operations -----------------------------------------------------

  /** The text a client sends as the revision it saw; digests are taken to be collision-free. */
  datatype Revision = Malformed | Digest(lines: seq<string>)

  /** Which commands fail for a reason outside the model. */
  datatype Faults = Faults(lock: bool, list: bool, create: bool, check: bool, attach: bool,
                           append: bool, relist: bool, remove: bool, save: bool, undo: bool)

  datatype Result =
    | Done | Disabled | Invalid | Protected | NoIdentifier | LockFailed | Changed
    | CreateFailed | AttachFailed | AppendFailed | NotFound | DeleteFailed
    | PersistenceFailed | RollbackFailed

  datatype Outcome = Outcome(host: Host, result: Result, issued: seq<Args>)

  function RuleWithId(rule: Rule, id: string): Option<Rule> {
    match Normalize(rule.(id := ""))
    case None => None
    case Some(normalized) => Some(normalized.(id := id))
  }

  const CREATE := ["-N", CHAIN]
  const ATTACH := ["-I", "INPUT", "1", "-j", CHAIN]

  /** Lines the controller sees: none when the listing fails or the chain is absent. */
  function Seen(host: Host, fault: bool): seq<string> {
    if fault then [] else ManagedLines(host.Rules())
  }

  /** The outcome with one more command in front. */
  function After(argv: Args, o: Outcome): Outcome { o.(issued := [argv] + o.issued) }

  function AddOutcome(guard: Guard, allowWrite: bool, host: Host, rule: Rule, expected: Revision, id: Option<string>,
                      f: Faults): Outcome
  {
    if !allowWrite then Outcome(host, Disabled, [])
    else
      match Normalize(rule.(id := ""))
      case None => Outcome(host, Invalid, [])
      case Some(normalized) =>
        if Blocks(guard, normalized) then Outcome(host, Protected, [])
        else if id.None? then Outcome(host, NoIdentifier, [])
        else if f.lock then Outcome(host, LockFailed, [])
        else if expected != Digest(Seen(host, f.list)) then Outcome(host, Changed, [])
        else if host.chain.Some? && !f.list then AddToChain(host, normalized.(id := id.value), f)
        else
          match Attempt(host, CREATE, f.create)
          case None => Outcome(host, CreateFailed, [CREATE])
          case Some(created) => After(CREATE, AddToChain(created, normalized.(id := id.value), f))
  }

  function AddToChain(host: Host, rule: Rule, f: Faults): Outcome {
    if host.attached && !f.check then AppendAndSave(host, rule, f)
    else
      match Attempt(host, ATTACH, f.attach)
      case None => Outcome(host, AttachFailed, [ATTACH])
      case Some(attached) => After(ATTACH, AppendAndSave(attached, rule, f))
  }

  function AppendAndSave(host: Host, rule: Rule, f: Faults): Outcome {
    var args := AppendArgs(rule);
    match Attempt(host, args, f.append)
    case None => Outcome(host, AppendFailed, [args])
    case Some(appended) =>
      if !f.save then Outcome(appended, Done, [args])
      else
        var rollback := ["-D", CHAIN] + args[2..];
        match Attempt(appended, rollback, f.undo)
        case None => Outcome(appended, RollbackFailed, [args, rollback])
        case Some(undone) => Outcome(undone, PersistenceFailed, [args, rollback])
  }

  /** Position, counted from zero, of the first rule that carries an identifier. */
  function FirstCarrier(rules: seq<Args>, id: string): (k: nat)
    ensures k <= |rules|
    ensures k < |rules| ==> Carries(rules[k], id)
    ensures forall i :: 0 <= i < k ==> !Carries(rules[i], id)
  {
    if rules == [] || Carries(rules[0], id) then 0 else 1 + FirstCarrier(rules[1..], id)
  }

  function DeleteOutcome(allowWrite: bool, host: Host, id: string, expected: Revision, f: Faults): Outcome {
    if !allowWrite then Outcome(host, Disabled, [])
    else if !RuleId(id) then Outcome(host, Invalid, [])
    else if f.lock then Outcome(host, LockFailed, [])
    else if expected != Digest(Seen(host, f.list)) then Outcome(host, Changed, [])
    else if host.chain.None? || f.relist then Outcome(host, NotFound, [])
    else
      var k := FirstCarrier(host.Rules(), id);
      if k == |host.Rules()| then Outcome(host, NotFound, [])
      else RemoveAndSave(host, host.Rules()[k], k + 1, f)
  }

  function RemoveAndSave(host: Host, rule: Args, position: nat, f: Faults): Outcome {
    var delete := ["-D", CHAIN] + rule;
    match Attempt(host, delete, f.remove)
    case None => Outcome(host, DeleteFailed, [delete])
    case Some(deleted) =>
      if !f.save then Outcome(deleted, Done, [delete])
      else
        var restore := ["-I", CHAIN, Decimal(position)] + rule;
        match Attempt(deleted, restore, f.undo)
        case None => Outcome(deleted, RollbackFailed, [delete, restore])
        case Some(restored) => Outcome(restored, PersistenceFailed, [delete, restore])
  }

  /** The controller as the agent runs it: one command at a time against the live chain. */
  class FirewallController {
    const guard: Guard
    const allowWrite: bool
    var host: Host
    var issued: seq<Args>

    constructor (guard: Guard, allowWrite: bool, host: Host)
      ensures this.guard == guard && this.allowWrite == allowWrite && this.host == host && issued == []
    {
      this.guard, this.allowWrite, this.host, this.issued := guard, allowWrite, host, [];
    }

    method Run(argv: Args, fault: bool) returns (ok: bool)
      modifies this
      ensures issued == old(issued) + [argv]
      ensures ok == Attempt(old(host), argv, fault).Some?
      ensures host == if ok then Attempt(old(host), argv, fault).value else old(host)
    {
      var next := Attempt(host, argv, fault);
      issued := issued + [argv];
      ok := next.Some?;
      if ok { host := next.value; }
    }

    /** `-S HSERVER-INPUT`. */
    method List(fault: bool) returns (output: Option<string>)
      ensures output == if fault || host.chain.None? then None else Some(Listing(host.Rules()))
    {
      if fault || host.chain.None? { return None; }
      return Some(Listing(host.Rules()));
    }

    method SeenLines(fault: bool) returns (lines: seq<string>, chainExists: bool)
      requires host.Readable()
      ensures lines == Seen(host, fault)
      ensures chainExists == (host.chain.Some? && !fault)
    {
      hide Tokens, Listing, ManagedTexts;
      var output := List(fault);
      if output.None? { return [], false; }
      lines := ReadManagedLines(output.value);
      chainExists := true;
      ListingReadsBack(host.Rules());
    }

    method Add(rule: Rule, expected: Revision, id: Option<string>, f: Faults) returns (result: Result)
      requires host.Readable()
      modifies this
      ensures var outcome := AddOutcome(guard, allowWrite, old(host), rule, expected, id, f);
        host == outcome.host && result == outcome.result && issued == old(issued) + outcome.issued
    {
      hide Exec, Blocks, Normalize, Seen, AddToChain, Tokens;
      if !allowWrite { return Disabled; }
      var normalized := Normalize(rule.(id := ""));
      if normalized.None? { return Invalid; }
      if Blocks(guard, normalized.value) { return Protected; }
      if id.None? { return NoIdentifier; }
      var ready := normalized.value.(id := id.value);
      if f.lock { return LockFailed; }
      var lines, chainExists := SeenLines(f.list);
      if expected != Digest(lines) { return Changed; }
      if !chainExists {
        var created := Run(CREATE, f.create);
        if !created { return CreateFailed; }
      }
      result := AttachAndAppend(ready, f);
    }

    method AttachAndAppend(rule: Rule, f: Faults) returns (result: Result)
      modifies this
      ensures var outcome := AddToChain(old(host), rule, f);
        host == outcome.host && result == outcome.result && issued == old(issued) + outcome.issued
    {
      hide Exec, AppendAndSave;
      if !(host.attached && !f.check) {
        var attached := Run(ATTACH, f.attach);
        if !attached { return AttachFailed; }
      }
      result := Append(rule, f);
    }

    method Append(rule: Rule, f: Faults) returns (result: Result)
      modifies this
      ensures var outcome := AppendAndSave(old(host), rule, f);
        host == outcome.host && result == outcome.result && issued == old(issued) + outcome.issued
    {
      hide Exec, Options;
      var args := AppendArgs(rule);
      var appended := Run(args, f.append);
      if !appended { return AppendFailed; }
      if f.save {
        var undone := Run(["-D", CHAIN] + args[2..], f.undo);
        if !undone { return RollbackFailed; }
        return PersistenceFailed;
      }
      return Done;
    }

    method Delete(id: string, expected: Revision, f: Faults) returns (result: Result)
      requires host.Readable()
      modifies this
      ensures var outcome := DeleteOutcome(allowWrite, old(host), id, expected, f);
        host == outcome.host && result == outcome.result && issued == old(issued) + outcome.issued
    {
      hide Exec, Seen, Tokens, Listing, RuleVectors, SplitOn, HasComment, RemoveAndSave, RuleId;
      if !allowWrite { return Disabled; }
      if !RuleId(id) { return Invalid; }
      if f.lock { return LockFailed; }
      var lines, _ := SeenLines(f.list);
      if expected != Digest(lines) { return Changed; }
      var output := List(f.relist);
      if output.None? { return NotFound; }
      var target, position := FindTarget(output.value, id);
      ghost var rules := host.Rules();
      ListingReadsBack(rules);
      if target.None? {
        assert FirstCarrier(rules, id) == |rules|;
        return NotFound;
      }
      assert FirstCarrier(rules, id) == position - 1;
      assert target.value == ["-A", CHAIN] + rules[position - 1];
      result := Remove(target.value, position, f);
    }

    method Remove(target: Args, position: nat, f: Faults) returns (result: Result)
      requires |target| >= 2 && target[1] == CHAIN
      modifies this
      ensures var outcome := RemoveAndSave(old(host), target[2..], position, f);
        host == outcome.host && result == outcome.result && issued == old(issued) + outcome.issued
    {
      hide Exec, Decimal;
      var delete := ["-D"] + target[1..];
      assert delete == ["-D", CHAIN] + target[2..];
      var deleted := Run(delete, f.remove);
      if !deleted { return DeleteFailed; }
      if f.save {
        var restored := Run(["-I", CHAIN, Decimal(position)] + target[2..], f.undo);
        if !restored { return RollbackFailed; }
        return PersistenceFailed;
      }
      return Done;
    }
  }
}
