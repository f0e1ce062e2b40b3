/** What every call of the firewall controller keeps, and what holds after every run. */
module FirewallSafety {
  import opened Text
  import opened FirewallRule
  import opened Firewall
  import opened Network
  import opened Base64Url

  // ---- list edits ---------------------------------------------------------

  lemma {:induction false} RemoveAppended<T>(s: seq<T>, x: T)
    requires x !in s
    ensures RemoveFirst(s + [x], x) == s
  {
    if s == [] {
      assert s + [x] == [x];
    } else {
      RemoveAppended(s[1..], x);
      assert (s + [x])[1..] == s[1..] + [x];
    }
  }

  lemma {:induction false} RemoveEarliest<T>(s: seq<T>, k: nat)
    requires k < |s| && forall i :: 0 <= i < k ==> s[i] != s[k]
    ensures RemoveFirst(s, s[k]) == s[..k] + s[k + 1..]
  {
    if k > 0 {
      RemoveEarliest(s[1..], k - 1);
      assert s[1..][k - 1] == s[k];
      assert s[..k] == [s[0]] + s[1..][..k - 1];
    }
  }

  // ---- what each command does --------------------------------------------

  lemma ExecFixed(host: Host)
    ensures Exec(host, CREATE) == if host.chain.None? then Some(host.(chain := Some([]))) else None
    ensures Exec(host, ATTACH) == if host.chain.Some? then Some(host.(attached := true)) else None
  {}

  lemma ExecRule(host: Host, rule: Args, position: nat)
    requires host.chain.Some? && position <= MAX_INT
    ensures Exec(host, ["-A", CHAIN] + rule) == Some(host.(chain := Some(host.Rules() + [rule])))
    ensures rule in host.Rules() ==>
      Exec(host, ["-D", CHAIN] + rule) == Some(host.(chain := Some(RemoveFirst(host.Rules(), rule))))
    ensures 1 <= position <= |host.Rules()| + 1 ==>
      Exec(host, ["-I", CHAIN, Decimal(position)] + rule) ==
        Some(host.(chain := Some(InsertAt(host.Rules(), position - 1, rule))))
  {
    hide Atoi, Decimal;
    AtoiDecimal(position);
    var add, remove, insert := ["-A", CHAIN] + rule, ["-D", CHAIN] + rule, ["-I", CHAIN, Decimal(position)] + rule;
    assert add[0] == "-A" && remove[0] == "-D" && insert[1] == CHAIN;
    assert add[2..] == rule && remove[2..] == rule && insert[3..] == rule;
  }

  // ---- one call -----------------------------------------------------------

  /** No stored rule carries the identifier yet: what six random bytes are relied on for. */
  predicate Fresh(host: Host, id: string) {
    forall i :: 0 <= i < |host.Rules()| ==> !Carries(host.Rules()[i], id)
  }

  /** A rule as Add prints it carries its identifier and is a managed one. */
  lemma PrintedCarries(rule: Rule)
    requires Normal(rule) && RuleId(rule.id)
    ensures Carries(Options(rule), rule.id) && Managed(Options(rule)) && Tokens(Options(rule))
  {
    hide Options, ArgAfter, Normal, Encode, Tokens;
    OptionValues(rule);
    var note := Note(rule);
    var head := "hserver:" + rule.id + ":";
    assert note == head + Encode(rule.comment);
    assert rule.id == "fw-" + rule.id[3..];
    assert head == "hserver:fw-" + rule.id[3..] + ":";
  }

  lemma AppendEffect(host: Host, rule: Rule, f: Faults)
    requires host.chain.Some? && Normal(rule) && RuleId(rule.id) && Fresh(host, rule.id)
    ensures var o := AppendAndSave(host, rule, f);
      && o.result in {Done, AppendFailed, RollbackFailed, PersistenceFailed}
      && (o.result == Done <==> !f.append && !f.save)
      && (o.result == RollbackFailed <==> !f.append && f.save && f.undo)
      && o.host == if o.result == Done || o.result == RollbackFailed
                   then host.(chain := Some(host.Rules() + [Options(rule)])) else host
  {
    hide Exec, Options, Normal, Carries;
    var options := Options(rule);
    PrintedCarries(rule);
    assert options !in host.Rules();
    ExecRule(host, options, 0);
    var appended := host.(chain := Some(host.Rules() + [options]));
    ExecRule(appended, options, 0);
    assert options in appended.Rules();
    RemoveAppended(host.Rules(), options);
    assert AppendArgs(rule)[2..] == options;
  }

  lemma AttachEffect(host: Host, rule: Rule, f: Faults)
    requires host.chain.Some? && Normal(rule) && RuleId(rule.id) && Fresh(host, rule.id)
    ensures var o := AddToChain(host, rule, f);
      && o.result in {Done, AttachFailed, AppendFailed, RollbackFailed, PersistenceFailed}
      && o.host.Rules() ==
           host.Rules() + (if o.result == Done || o.result == RollbackFailed then [Options(rule)] else [])
      && (o.result == Done ==> o.host.attached)
      && (o.result == Done <==> ((host.attached && !f.check) || !f.attach) && !f.append && !f.save)
  {
    hide Exec, Options, Normal, Carries, AppendAndSave;
    ExecFixed(host);
    AppendEffect(host, rule, f);
    var attached := host.(attached := true);
    assert attached.Rules() == host.Rules();
    AppendEffect(attached, rule, f);
  }

  /** Add commits exactly on the list its client read, appends exactly one rule, and in every other outcome
      but a failed undo leaves the rules as they were. */
  lemma AddEffect(guard: Guard, allowWrite: bool, host: Host, rule: Rule, expected: Revision, id: Option<string>,
      f: Faults)
    requires id.Some? ==> RuleId(id.value) && Fresh(host, id.value)
    ensures var o := AddOutcome(guard, allowWrite, host, rule, expected, id, f);
      && (o.result == Done ==> o.host.attached && expected == Digest(ManagedLines(host.Rules())))
      && (if o.result == Done || o.result == RollbackFailed then
            && id.Some? && RuleWithId(rule, id.value).Some?
            && var ready := RuleWithId(rule, id.value).value;
            && Normal(ready) && !Blocks(guard, ready)
            && o.host.Rules() == host.Rules() + [Options(ready)]
          else
            o.host.Rules() == host.Rules())
  {
    hide Exec, Options, Normal, Carries, AddToChain, Normalize, ManagedLines;
    if Normalize(rule.(id := "")).Some? && id.Some? {
      NormalizeIsNormal(rule.(id := ""));
      var normalized := Normalize(rule.(id := "")).value;
      var ready := normalized.(id := id.value);
      SameMeaning(guard, normalized, id.value);
      ExecFixed(host);
      if host.chain.Some? { AttachEffect(host, ready, f); }
      if host.chain.None? { AttachEffect(host.(chain := Some([])), ready, f); }
      assert host.chain.None? ==> ManagedLines(host.Rules()) == [] by { EmptyListing(); }
    }
  }

  /** The lines a call compares the revision with: those of the chain, or none when the listing fails. */
  function Compared(host: Host, failed: bool): seq<string> { if failed then [] else ManagedLines(host.Rules()) }

  /** What a request has to satisfy before the chain is looked at. */
  predicate Admitted(guard: Guard, allowWrite: bool, rule: Rule, id: Option<string>, f: Faults) {
    && allowWrite && id.Some? && !f.lock
    && Normalize(rule.(id := "")).Some? && !Blocks(guard, Normalize(rule.(id := "")).value)
  }

  /** Add succeeds exactly when the request is admitted, its revision is that of the chain, and no command on the way
      fails; a failed listing stops it only where there is a chain. It answers "changed" exactly when an admitted
      request names another revision than that of the lines it saw. */
  lemma AddDoneIff(guard: Guard, allowWrite: bool, host: Host, rule: Rule, expected: Revision, id: Option<string>,
                   f: Faults)
    requires id.Some? ==> RuleId(id.value) && Fresh(host, id.value)
    ensures AddOutcome(guard, allowWrite, host, rule, expected, id, f).result == Done <==>
      && Admitted(guard, allowWrite, rule, id, f) && expected == Digest(ManagedLines(host.Rules()))
      && (host.chain.Some? ==> !f.list) && (host.chain.None? ==> !f.create)
      && ((host.attached && !f.check) || !f.attach) && !f.append && !f.save
    ensures AddOutcome(guard, allowWrite, host, rule, expected, id, f).result == Changed <==>
      Admitted(guard, allowWrite, rule, id, f) && expected != Digest(Compared(host, f.list))
  {
    hide Exec, Options, Normal, Carries, AddToChain, Normalize, ManagedLines, Blocks;
    if Normalize(rule.(id := "")).Some? && id.Some? {
      NormalizeIsNormal(rule.(id := ""));
      var normalized := Normalize(rule.(id := "")).value;
      var ready := normalized.(id := id.value);
      SameMeaning(guard, normalized, id.value);
      ExecFixed(host);
      if host.chain.Some? { AttachEffect(host, ready, f); }
      if host.chain.None? { AttachEffect(host.(chain := Some([])), ready, f); }
      assert host.chain.None? ==> ManagedLines(host.Rules()) == [] by { EmptyListing(); }
    }
  }

  lemma EmptyListing()
    ensures ManagedLines([]) == []
  {}

  /** Giving a rule its identifier changes neither its shape nor what the guard says. */
  lemma SameMeaning(guard: Guard, rule: Rule, id: string)
    requires Normal(rule)
    ensures Normal(rule.(id := id)) && Blocks(guard, rule.(id := id)) == Blocks(guard, rule)
  {
    hide Overlap, ParseBlock, ShowBlock;
  }

  /** A rule that carries a generated identifier is a managed one. */
  lemma CarrierIsManaged(rule: Args, id: string)
    requires RuleId(id) && Carries(rule, id)
    ensures Managed(rule)
  {
    var note := ArgAfter(["-A", CHAIN] + rule, "--comment");
    hide ArgAfter;
    assert id[..3] == "fw-";
    assert "hserver:" + id + ":" == "hserver:fw-" + (id[3..] + ":");
    assert "hserver:fw-" <= note;
  }

  lemma {:induction false} ManagedIsListed(rules: seq<Args>, k: nat)
    requires k < |rules| && Managed(rules[k])
    ensures ManagedLines(rules) != []
  {
    hide Managed, Line;
    if k > 0 { ManagedIsListed(rules[1..], k - 1); }
  }

  /** Delete removes exactly the first rule carrying the identifier, and in every outcome but success and a failed
      undo leaves the host as it was, order and unmanaged rules included. It commits on the list its client read
      exactly when its first listing succeeded; when that fails, only the revision of the empty list passes. */
  lemma DeleteEffect(allowWrite: bool, host: Host, id: string, expected: Revision, f: Faults)
    requires |host.Rules()| < MAX_INT
    ensures var o := DeleteOutcome(allowWrite, host, id, expected, f);
      && (if o.result == Done || o.result == RollbackFailed then
            && (expected == Digest(ManagedLines(host.Rules())) <==> !f.list)
            && (f.list ==> expected == Digest([]))
            && var k := FirstCarrier(host.Rules(), id);
            && k < |host.Rules()|
            && o.host == host.(chain := Some(host.Rules()[..k] + host.Rules()[k + 1..]))
          else
            o.host == host)
  {
    hide Exec, Carries, RuleId, ManagedLines, Managed;
    if host.chain.Some? && RuleId(id) {
      var rules := host.Rules();
      var k := FirstCarrier(rules, id);
      if k < |rules| {
        RemoveEffect(host, k, f);
        CarrierIsManaged(rules[k], id);
        ManagedIsListed(rules, k);
      }
    }
  }

  lemma RemoveEffect(host: Host, k: nat, f: Faults)
    requires host.chain.Some? && k < |host.Rules()| < MAX_INT
    requires forall i :: 0 <= i < k ==> host.Rules()[i] != host.Rules()[k]
    ensures var o := RemoveAndSave(host, host.Rules()[k], k + 1, f);
      && o.result in {Done, DeleteFailed, RollbackFailed, PersistenceFailed}
      && (o.result == Done <==> !f.remove && !f.save)
      && (o.result == RollbackFailed <==> !f.remove && f.save && f.undo)
      && o.host == if o.result == Done || o.result == RollbackFailed
                   then host.(chain := Some(host.Rules()[..k] + host.Rules()[k + 1..])) else host
  {
    var rules := host.Rules();
    var rule := rules[k];
    var rest := rules[..k] + rules[k + 1..];
    assert InsertAt(rest, k, rule) == rules;
    hide Exec, InsertAt, RemoveFirst, Decimal;
    RemoveEarliest(rules, k);
    ExecRule(host, rule, 0);
    var deleted := host.(chain := Some(rest));
    ExecRule(deleted, rule, k + 1);
    assert Exec(host, ["-D", CHAIN] + rule) == Some(deleted);
    assert Exec(deleted, ["-I", CHAIN, Decimal(k + 1)] + rule) == Some(host);
  }

  /** Delete succeeds exactly when the request is well formed, its revision is that of the lines it saw, some rule of
      the chain carries the identifier, and neither the second listing nor a command fails; with a working listing that
      is the revision of the chain. It answers "changed" exactly on another revision. */
  lemma DeleteDoneIff(allowWrite: bool, host: Host, id: string, expected: Revision, f: Faults)
    requires |host.Rules()| < MAX_INT
    ensures DeleteOutcome(allowWrite, host, id, expected, f).result == Done <==>
      && allowWrite && RuleId(id) && !f.lock && expected == Digest(Compared(host, f.list))
      && !f.relist && (exists i :: 0 <= i < |host.Rules()| && Carries(host.Rules()[i], id)) && !f.remove && !f.save
    ensures DeleteOutcome(allowWrite, host, id, expected, f).result == Changed <==>
      allowWrite && RuleId(id) && !f.lock && expected != Digest(Compared(host, f.list))
  {
    hide Exec, Carries, RuleId, ManagedLines, Managed, RemoveAndSave;
    var rules := host.Rules();
    var k := FirstCarrier(rules, id);
    if host.chain.Some? && k < |rules| { RemoveEffect(host, k, f); }
  }

  /** What passes the revision test without being the revision: the digest of no lines, when the listing fails. */
  predicate Slips(expected: Revision, f: Faults) { f.list && expected == Digest([]) }

  /** A stale Add never changes the host. It issues a changing command, the refused creation of the chain, exactly when
      its listing fails, it names the empty list, and the rule and the lock are in order. */
  lemma StaleAdd(guard: Guard, allowWrite: bool, host: Host, rule: Rule, id: Option<string>, expected: Revision,
      f: Faults)
    requires expected != Digest(ManagedLines(host.Rules()))
    ensures var o := AddOutcome(guard, allowWrite, host, rule, expected, id, f);
      && o.host == host && o.result != Done
      && (o.issued != [] <==>
            && Slips(expected, f) && allowWrite && !f.lock && id.Some?
            && Normalize(rule.(id := "")).Some? && !Blocks(guard, Normalize(rule.(id := "")).value))
      && (o.issued != [] ==> o.issued == [CREATE] && o.result == CreateFailed)
  {
    hide Normalize, Blocks, AddToChain;
    assert host.chain.None? ==> ManagedLines(host.Rules()) == [];
    hide ManagedLines;
    ExecFixed(host);
    hide Exec;
  }

  /** A stale Delete issues a command exactly when its first listing fails, it names the empty list, and its second
      listing finds the identifier; it then changes the host exactly when the deletion succeeds and is not undone. */
  lemma StaleDelete(allowWrite: bool, host: Host, id: string, expected: Revision, f: Faults)
    requires expected != Digest(ManagedLines(host.Rules())) && |host.Rules()| < MAX_INT
    ensures var o := DeleteOutcome(allowWrite, host, id, expected, f);
      && (o.issued != [] <==>
            && Slips(expected, f) && allowWrite && RuleId(id) && !f.lock && !f.relist
            && FirstCarrier(host.Rules(), id) < |host.Rules()|)
      && (o.host != host <==> o.issued != [] && !f.remove && (f.save ==> f.undo))
  {
    hide Exec, Carries, RuleId, ManagedLines, Managed;
    var rules := host.Rules();
    var k := FirstCarrier(rules, id);
    if host.chain.Some? && k < |rules| {
      RemoveEffect(host, k, f);
      assert |rules[..k] + rules[k + 1..]| != |rules|;
    }
  }

  const ONLY_LISTING := Faults(false, true, false, false, false, false, false, false, false, false)

  /** The case is real: with any one managed rule in the chain and nothing failing but the first listing, a client that
      names the empty list deletes the rule it never saw. */
  lemma UnreadRuleDeleted(rule: Rule)
    requires Normal(rule) && RuleId(rule.id)
    ensures var host := Host(Some([Options(rule)]), true);
      && Digest([]) != Digest(ManagedLines(host.Rules()))
      && DeleteOutcome(true, host, rule.id, Digest([]), ONLY_LISTING).host == host.(chain := Some([]))
      && DeleteOutcome(true, host, rule.id, Digest([]), ONLY_LISTING).result == Done
  {
    var host := Host(Some([Options(rule)]), true);
    PrintedCarries(rule);
    hide Options, RuleId, Normal, ManagedLines, Managed, Carries, DeleteOutcome;
    ManagedIsListed(host.Rules(), 0);
    OneCarrier(host, rule.id);
    DeleteEffect(true, host, rule.id, Digest([]), ONLY_LISTING);
  }

  /** Adding any unblocked rule in the same situation issues the creation of the chain. */
  lemma UnreadChainCreated(guard: Guard, host: Host, rule: Rule, id: string)
    requires Normal(rule) && Source(rule).Some? && !Blocks(guard, rule.(id := "")) && ManagedLines(host.Rules()) != []
    ensures AddOutcome(guard, true, host, rule, Digest([]), Some(id), ONLY_LISTING).issued == [CREATE]
  {
    SameMeaning(guard, rule, "");
    NormalizeStable(rule.(id := ""));
    hide Normal, Normalize, Blocks, ManagedLines, AddOutcome, Source;
    StaleAdd(guard, true, host, rule, Some(id), Digest([]), ONLY_LISTING);
  }

  lemma OneCarrier(host: Host, id: string)
    requires |host.Rules()| == 1 && Carries(host.Rules()[0], id) && RuleId(id) && host.chain.Some?
    ensures FirstCarrier(host.Rules(), id) == 0
    ensures DeleteOutcome(true, host, id, Digest([]), ONLY_LISTING).result == Done
    ensures host.Rules()[..0] + host.Rules()[1..] == []
  {
    hide Carries, RuleId, Exec;
    RemoveEffect(host, 0, ONLY_LISTING);
  }

  const SAMPLE := Rule("fw-000000000000", "ACCEPT", "all", 0, "0.0.0.0/0", [])

  /** Such a rule exists. */
  lemma SampleRule()
    ensures Normal(SAMPLE) && RuleId(SAMPLE.id)
  {
    SampleSource();
    SampleId();
    hide CanonicalSource, RuleId;
  }

  lemma SampleSource()
    ensures CanonicalSource("0.0.0.0/0")
  {
    DefaultText();
    WholeContains(0);
    hide ShowBlock;
    assert WHOLE.Valid() && "0.0.0.0/0" == ShowBlock(WHOLE);
  }

  lemma SampleId()
    ensures RuleId("fw-000000000000")
  {}

  // ---- every run ----------------------------------------------------------

  /** A stored rule that drops nothing on the management path. */
  ghost predicate SafeRule(guard: Guard, rule: Args) {
    Target(rule) == "DROP" ==> forall p: Packet :: guard.Protects(p) ==> !Matches(rule, p)
  }

  ghost predicate Safe(guard: Guard, rules: seq<Args>) {
    forall rule :: rule in rules && Managed(rule) ==> SafeRule(guard, rule)
  }

  /** One event: a call of the controller, or somebody else editing the same chain. */
  datatype Event =
    | Add(rule: Rule, expected: Revision, id: Option<string>, f: Faults)
    | Delete(target: string, expected: Revision, f: Faults)
    | Others(after: Host)

  ghost predicate Possible(host: Host, e: Event) {
    match e
    case Add(_, _, id, _) => id.Some? ==> RuleId(id.value) && Fresh(host, id.value)
    case Delete(_, _, _) => true
    case Others(after) =>
      && after.Readable() && |after.Rules()| < MAX_INT
      && forall rule :: rule in after.Rules() && Managed(rule) ==> rule in host.Rules()
  }

  function Next(guard: Guard, allowWrite: bool, host: Host, e: Event): Host {
    match e
    case Add(rule, expected, id, f) => AddOutcome(guard, allowWrite, host, rule, expected, id, f).host
    case Delete(target, expected, f) => DeleteOutcome(allowWrite, host, target, expected, f).host
    case Others(after) => after
  }

  ghost predicate Run(guard: Guard, allowWrite: bool, hosts: seq<Host>, events: seq<Event>) {
    && |hosts| == |events| + 1
    && forall i :: 0 <= i < |events| ==>
      && Possible(hosts[i], events[i]) && |hosts[i].Rules()| < MAX_INT
      && hosts[i + 1] == Next(guard, allowWrite, hosts[i], events[i])
  }

  lemma SafeStep(guard: Guard, allowWrite: bool, host: Host, e: Event)
    requires guard.Valid() && host.Readable() && |host.Rules()| < MAX_INT && Possible(host, e)
    requires Safe(guard, host.Rules())
    ensures Next(guard, allowWrite, host, e).Readable()
    ensures Safe(guard, Next(guard, allowWrite, host, e).Rules())
  {
    hide Exec, Options, Normal, Carries, AddOutcome, DeleteOutcome, Normalize, ManagedLines, Managed, SafeRule,
        Tokens, Blocks, RuleId;
    match e {
      case Add(rule, expected, id, f) =>
        AddEffect(guard, allowWrite, host, rule, expected, id, f);
        var o := AddOutcome(guard, allowWrite, host, rule, expected, id, f);
        if o.result == Done || o.result == RollbackFailed {
          var ready := RuleWithId(rule, id.value).value;
          PrintedCarries(ready);
          PrintedIsSafe(guard, ready);
          assert o.host.Rules() == host.Rules() + [Options(ready)];
        }
      case Delete(target, expected, f) =>
        DeleteEffect(allowWrite, host, target, expected, f);
      case Others(after) =>
    }
  }

  lemma PrintedIsSafe(guard: Guard, rule: Rule)
    requires guard.Valid() && Normal(rule) && !Blocks(guard, rule)
    ensures SafeRule(guard, Options(rule))
  {
    hide Matches, Options, Normal, Blocks;
    forall p: Packet | Target(Options(rule)) == "DROP" && guard.Protects(p)
      ensures !Matches(Options(rule), p)
    {
      MatchesMeaning(rule, p);
      UnblockedPacket(guard, rule, p);
    }
  }

  lemma {:induction false} RunKeepsSafe(guard: Guard, allowWrite: bool, hosts: seq<Host>, events: seq<Event>, n: nat)
    requires guard.Valid() && Run(guard, allowWrite, hosts, events) && n <= |events|
    requires hosts[0].Readable() && Safe(guard, hosts[0].Rules())
    ensures hosts[n].Readable() && Safe(guard, hosts[n].Rules())
  {
    hide Safe, Next, Possible;
    if n > 0 {
      RunKeepsSafe(guard, allowWrite, hosts, events, n - 1);
      SafeStep(guard, allowWrite, hosts[n - 1], events[n - 1]);
    }
  }

  /** From a chain without managed rules, after every run of calls with any failures and any edits by others,
      no managed DROP rule matches a packet from a protected network to a protected port. */
  lemma ManagementPathStaysOpen(guard: Guard, allowWrite: bool, hosts: seq<Host>, events: seq<Event>, n: nat,
      rule: Args, p: Packet)
    requires guard.Valid() && Run(guard, allowWrite, hosts, events) && n <= |events|
    requires hosts[0].Readable() && forall r :: r in hosts[0].Rules() ==> !Managed(r)
    requires rule in hosts[n].Rules() && Managed(rule) && Target(rule) == "DROP" && guard.Protects(p)
    ensures !Matches(rule, p)
  {
    hide Managed, Run, Matches;
    RunKeepsSafe(guard, allowWrite, hosts, events, n);
  }
}
