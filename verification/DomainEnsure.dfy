/** The project-domain ensure protocol: a client reads the inventory and sends the revision it saw; the agent
    observes, acts only on an absent domain, and observes again before it reports success. */
module DomainEnsure {
  import opened Text

  /** A site file: regular with its text, or something the agent will not read. */
  datatype Site = Regular(text: string) | Special

  /** An entry of the enabled directory. */
  datatype Entry = Symlink(target: string) | OtherEntry

  /** Both directories, by domain. */
  datatype World = World(sites: map<string, Site>, entries: map<string, Entry>)

  const MAX_CONFIG := 0x2_0000

  datatype Plan = Plan(target: string, port: int)

  // ---- revisions ----------------------------------------------------------

  /** The bytes that are hashed: the text, a zero byte and the enabled word. */
  function RevisionInput(text: string, enabled: bool): string {
    text + "\0" + (if enabled then "enabled" else "disabled")
  }

  /** Digests are taken to be collision-free, so a revision stands for what was hashed. */
  datatype Revision = AbsentWord | Digest(input: string) | MalformedRevision

  /** Equal revisions mean equal text and equal enablement. */
  lemma RevisionIdentifies(a: string, b: string, x: bool, y: bool)
    requires RevisionInput(a, x) == RevisionInput(b, y)
    ensures a == b && x == y
  {
    var u, v := RevisionInput(a, x), RevisionInput(b, y);
    var on, off := "\0enabled", "\0disabled";
    assert RevisionInput(a, x) == a + (if x then on else off);
    assert RevisionInput(b, y) == b + (if y then on else off);
    assert u[|u| - 7] == (if x then 'e' else 'i');
    assert v[|v| - 7] == (if y then 'e' else 'i');
    assert u[..|a|] == a && v[..|b|] == b;
  }

  // ---- observing ----------------------------------------------------------

  predicate Occurs(part: string, whole: string) {
    exists i :: 0 <= i <= |whole| && part <= whole[i..]
  }

  function Owner(target: string): string { "agent-" + target }

  predicate Owned(text: string, target: string, domain: string) {
    && Occurs("# hserver-project-target: " + Owner(target) + "\n", text)
    && Occurs("# hserver-project-domain: " + domain + "\n", text)
  }

  const PROXY := "proxy_pass http://127.0.0.1:"

  /** The blanks a regular expression skips. */
  predicate RegexSpace(c: char) { c in {' ', '\t', '\n', '\r'} || c as int == 12 }

  predicate Spaces(s: string) { forall i :: 0 <= i < |s| ==> RegexSpace(s[i]) }

  function SkipSpaces(s: string): string {
    if s != "" && RegexSpace(s[0]) then SkipSpaces(s[1..]) else s
  }

  function DropSpaces(s: string): string {
    if s != "" && RegexSpace(s[|s| - 1]) then DropSpaces(s[..|s| - 1]) else s
  }

  /** The port of a line that is one loopback proxy directive with blanks around it. */
  function ProxyPort(line: string): Option<int> {
    var s := DropSpaces(SkipSpaces(line));
    if PROXY <= s && |s| > |PROXY| && s[|s| - 1] == ';' then
      var digits := s[|PROXY|..|s| - 1];
      if 1 <= |digits| <= 5 && Digits(digits) then Some(DigitsValue(digits)) else None
    else None
  }

  function FirstPort(lines: seq<string>): Option<int> {
    if lines == [] then None
    else if ProxyPort(lines[0]).Some? then ProxyPort(lines[0])
    else FirstPort(lines[1..])
  }

  function Upstream(text: string): Option<int> { FirstPort(SplitOn(text, '\n')) }

  datatype Status = StatusActive | StatusDrifted

  /** What is reported of a domain owned by a target. */
  datatype Mapping = Mapping(target: string, domain: string, hostPort: int, desiredPort: int, status: Status,
                             enabled: bool, revision: Revision)

  datatype Observation = Absent | Managed(mapping: Mapping) | Drift(mapping: Mapping) | Foreign

  function AvailablePath(domain: string): string { "sites-available/" + domain + ".conf" }

  predicate Linked(w: World, domain: string) {
    domain in w.entries && w.entries[domain] == Symlink(AvailablePath(domain))
  }

  /** `observeDomainWithPlan`; `None` when a file cannot be inspected. */
  function Observe(w: World, plan: Plan, domain: string, fault: bool): Option<Observation> {
    if fault then None
    else if domain !in w.sites then Some(if domain in w.entries then Foreign else Absent)
    else if w.sites[domain].Special? || |w.sites[domain].text| > MAX_CONFIG then Some(Foreign)
    else
      var text := w.sites[domain].text;
      var enabled := Linked(w, domain);
      var revision := Digest(RevisionInput(text, enabled));
      if !Owned(text, plan.target, domain) then Some(Foreign)
      else
        match Upstream(text)
        case None => Some(Drift(Mapping(plan.target, domain, 0, plan.port, StatusDrifted, enabled, revision)))
        case Some(port) =>
          if port < 1 || port > 65535 then
            Some(Drift(Mapping(plan.target, domain, 0, plan.port, StatusDrifted, enabled, revision)))
          else if port != plan.port || !enabled then
            Some(Drift(Mapping(plan.target, domain, port, plan.port, StatusDrifted, enabled, revision)))
          else Some(Managed(Mapping(plan.target, domain, port, plan.port, StatusActive, enabled, revision)))
  }

  /** A mapping fit to be reported: active, enabled, on the planned port and owned by the target. */
  predicate Healthy(w: World, plan: Plan, domain: string, m: Mapping) {
    && m.status.StatusActive? && m.enabled && Linked(w, domain)
    && m.target == plan.target && m.domain == domain && m.hostPort == plan.port
    && domain in w.sites && w.sites[domain].Regular? && Owned(w.sites[domain].text, plan.target, domain)
    && Upstream(w.sites[domain].text) == Some(plan.port)
    && m.revision == Digest(RevisionInput(w.sites[domain].text, true))
  }

  /** The managed observation is made exactly of healthy mappings. */
  lemma ManagedIffHealthy(w: World, plan: Plan, domain: string, m: Mapping)
    requires 1 <= plan.port <= 65535
    ensures Observe(w, plan, domain, false) == Some(Managed(m)) <==>
      Healthy(w, plan, domain, m) && m.desiredPort == plan.port && |w.sites[domain].text| <= MAX_CONFIG
  {
    hide Owned, Upstream, RevisionInput, Linked;
  }

  lemma {:induction false} SkipLeading(before: string, rest: string)
    requires Spaces(before) && rest != "" && !RegexSpace(rest[0])
    ensures SkipSpaces(before + rest) == rest
  {
    if before == "" {
      assert before + rest == rest;
    } else {
      assert (before + rest)[1..] == before[1..] + rest;
      SkipLeading(before[1..], rest);
    }
  }

  lemma {:induction false} DropTrailing(rest: string, after: string)
    requires Spaces(after) && rest != "" && !RegexSpace(rest[|rest| - 1])
    ensures DropSpaces(rest + after) == rest
  {
    if after == "" {
      assert rest + after == rest;
    } else {
      var n := |after| - 1;
      assert (rest + after)[..|rest| + n] == rest + after[..n];
      DropTrailing(rest, after[..n]);
    }
  }

  lemma {:induction false} SkippedAre(s: string) returns (before: string)
    ensures Spaces(before) && s == before + SkipSpaces(s)
  {
    before := "";
    if s != "" && RegexSpace(s[0]) {
      var more := SkippedAre(s[1..]);
      before := [s[0]] + more;
    }
  }

  lemma {:induction false} DroppedAre(s: string) returns (after: string)
    ensures Spaces(after) && s == DropSpaces(s) + after
  {
    after := "";
    if s != "" && RegexSpace(s[|s| - 1]) {
      var more := DroppedAre(s[..|s| - 1]);
      after := more + [s[|s| - 1]];
    }
  }

  /** A line that holds the directive for a port and nothing else but blanks. */
  ghost predicate Directive(line: string, port: int) {
    exists before: string, digits: string, after: string :: DirectiveOf(line, port, before, digits, after)
  }

  predicate DirectiveOf(line: string, port: int, before: string, digits: string, after: string) {
    && Spaces(before) && Spaces(after) && 1 <= |digits| <= 5 && Digits(digits) && DigitsValue(digits) == port
    && line == before + (PROXY + digits + ";" + after)
  }

  lemma DirectiveIsRead(line: string, port: int, before: string, digits: string, after: string)
    requires DirectiveOf(line, port, before, digits, after)
    ensures ProxyPort(line) == Some(port)
  {
    var core := PROXY + digits + ";";
    assert core[0] == PROXY[0] && PROXY[0] == 'p' && core[|core| - 1] == ';';
    hide SkipSpaces, DropSpaces, Digits, DigitsValue, Spaces;
    SkipLeading(before, core + after);
    DropTrailing(core, after);
    assert core[|PROXY|..|core| - 1] == digits;
  }

  lemma ReadIsDirective(line: string, port: int)
    requires ProxyPort(line) == Some(port)
    ensures Directive(line, port)
  {
    hide SkipSpaces, DropSpaces, Digits, DigitsValue, Spaces;
    var skipped := SkipSpaces(line);
    var core := DropSpaces(skipped);
    var before := SkippedAre(line);
    var after := DroppedAre(skipped);
    var digits := core[|PROXY|..|core| - 1];
    assert core == PROXY + digits + ";";
    assert DirectiveOf(line, port, before, digits, after);
  }

  lemma ProxyPortIff(line: string, port: int)
    ensures ProxyPort(line) == Some(port) <==> Directive(line, port)
  {
    if ProxyPort(line) == Some(port) { ReadIsDirective(line, port); }
    if Directive(line, port) {
      var before, digits, after :| DirectiveOf(line, port, before, digits, after);
      DirectiveIsRead(line, port, before, digits, after);
    }
  }

  ghost predicate NoDirective(line: string) { forall port :: !Directive(line, port) }

  lemma NoPortIff(line: string)
    ensures ProxyPort(line).None? <==> NoDirective(line)
  {
    forall port ensures ProxyPort(line) == Some(port) <==> Directive(line, port) { ProxyPortIff(line, port); }
    hide Directive;
    if ProxyPort(line).Some? { assert Directive(line, ProxyPort(line).value); }
  }

  /** The first line that is a directive stands at an index, and is one for a port. */
  ghost predicate FirstDirective(lines: seq<string>, port: int, k: nat) {
    k < |lines| && Directive(lines[k], port) && forall j :: 0 <= j < k ==> NoDirective(lines[j])
  }

  lemma {:induction false} FirstPortIs(lines: seq<string>, port: int, k: nat)
    requires FirstDirective(lines, port, k)
    ensures FirstPort(lines) == Some(port)
  {
    if k == 0 {
      ProxyPortIff(lines[0], port);
    } else {
      NoPortIff(lines[0]);
      FirstPortIs(lines[1..], port, k - 1);
    }
  }

  lemma {:induction false} FirstPortStands(lines: seq<string>, port: int) returns (k: nat)
    requires FirstPort(lines) == Some(port)
    ensures FirstDirective(lines, port, k)
  {
    ProxyPortIff(lines[0], port);
    NoPortIff(lines[0]);
    hide ProxyPort, Directive, NoDirective;
    k := 0;
    if ProxyPort(lines[0]).None? {
      var rest := FirstPortStands(lines[1..], port);
      k := rest + 1;
    }
  }

  lemma FirstPortIff(lines: seq<string>, port: int)
    ensures FirstPort(lines) == Some(port) <==> exists k: nat :: FirstDirective(lines, port, k)
  {
    hide FirstDirective, FirstPort;
    if FirstPort(lines) == Some(port) {
      var k := FirstPortStands(lines, port);
      assert FirstDirective(lines, port, k);
    } else if exists k: nat :: FirstDirective(lines, port, k) {
      var k: nat :| FirstDirective(lines, port, k);
      FirstPortIs(lines, port, k);
    }
  }

  /** The upstream port of a site file is that of its first line that is such a directive. */
  lemma {:induction false} UpstreamIff(text: string, lines: seq<string>, port: int)
    requires lines == SplitOn(text, '\n')
    ensures Upstream(text) == Some(port) <==> exists k: nat :: FirstDirective(lines, port, k)
  {
    FirstPortIff(lines, port);
    hide FirstDirective, FirstPort;
  }

  /** The four observed states, exactly: absent without site file and enabled entry; foreign with an entry only, or
      with a site file that is not regular, too large or without the two ownership marks; otherwise managed or drifted,
      and both carry the revision of the file and its enablement. */
  lemma ObservedStates(w: World, plan: Plan, domain: string)
    requires 1 <= plan.port <= 65535
    ensures var o := Observe(w, plan, domain, false);
      var known := domain in w.sites && w.sites[domain].Regular? && |w.sites[domain].text| <= 131072;
      var own := known && Owned(w.sites[domain].text, plan.target, domain);
      && o.Some?
      && (o.value.Absent? <==> domain !in w.sites && domain !in w.entries)
      && (o.value.Foreign? <==> !o.value.Absent? && !own)
      && (o.value.Managed? <==> own && Linked(w, domain) && Upstream(w.sites[domain].text) == Some(plan.port))
      && (own ==>
            && (o.value.Managed? || o.value.Drift?)
            && o.value.mapping.revision == Digest(RevisionInput(w.sites[domain].text, Linked(w, domain))))
  {
    hide Owned, Upstream, RevisionInput, Linked;
  }

  // ---- the agent ----------------------------------------------------------

  /** What the runtime makes of an apply: an error flag and the domain's two files afterwards. */
  datatype Runtime = Runtime(ok: bool, site: Option<Site>, entry: Option<Entry>)

  function Put<V>(m: map<string, V>, domain: string, v: Option<V>): map<string, V> {
    if v.Some? then m[domain := v.value] else m - {domain}
  }

  function AfterApply(w: World, domain: string, r: Runtime): World {
    World(Put(w.sites, domain, r.site), Put(w.entries, domain, r.entry))
  }

  datatype Failure = Disabled | BadRevision | Unobservable | Conflict | Stale | Drifted | OperationFailed

  datatype Receipt = Ok(changed: bool, observation: Mapping) | Failed(failure: Failure)

  datatype Outcome = Outcome(world: World, receipt: Receipt, applied: bool)

  datatype Faults = Faults(plan: bool, first: bool, second: bool)

  function Ensured(w: World, allow: bool, plan: Plan, domain: string, expected: Revision, r: Runtime, f: Faults)
    : Outcome
  {
    if !allow then Outcome(w, Failed(Disabled), false)
    else if expected.MalformedRevision? then Outcome(w, Failed(BadRevision), false)
    else if f.plan then Outcome(w, Failed(Unobservable), false)
    else
      match Observe(w, plan, domain, f.first)
      case None => Outcome(w, Failed(Unobservable), false)
      case Some(Foreign) => Outcome(w, Failed(Conflict), false)
      case Some(Drift(m)) => Outcome(w, Failed(if m.revision != expected then Stale else Drifted), false)
      case Some(Managed(m)) =>
        if m.revision != expected then Outcome(w, Failed(Stale), false)
        else if !m.status.StatusActive? || !m.enabled then Outcome(w, Failed(Drifted), false)
        else Outcome(w, Ok(false, m), false)
      case Some(Absent) =>
        if expected != AbsentWord then Outcome(w, Failed(Stale), false)
        else
          var after := AfterApply(w, domain, r);
          if !r.ok then Outcome(after, Failed(OperationFailed), true)
          else
            match Observe(after, plan, domain, f.second)
            case None => Outcome(after, Failed(Unobservable), true)
            case Some(Foreign) => Outcome(after, Failed(Conflict), true)
            case Some(Managed(m)) =>
              if m.status.StatusActive? && m.enabled then Outcome(after, Ok(true, m), true)
              else Outcome(after, Failed(Drifted), true)
            case Some(_) => Outcome(after, Failed(Drifted), true)
  }

  class DeployDomainController {
    const allow: bool
    var sites: map<string, Site>
    var entries: map<string, Entry>
    var applies: seq<string>

    constructor (allow: bool, w: World)
      ensures this.allow == allow && Current() == w && applies == []
    {
      this.allow, sites, entries, applies := allow, w.sites, w.entries, [];
    }

    function Current(): World
      reads this
    {
      World(sites, entries)
    }

    method Ensure(plan: Plan, domain: string, expected: Revision, r: Runtime, f: Faults) returns (receipt: Receipt)
      modifies this`sites, this`entries, this`applies
      ensures var o := Ensured(old(Current()), allow, plan, domain, expected, r, f);
        && Current() == o.world && receipt == o.receipt
        && applies == old(applies) + (if o.applied then [domain] else [])
    {
      hide Observe, RevisionInput;
      if !allow { return Failed(Disabled); }
      if expected.MalformedRevision? { return Failed(BadRevision); }
      if f.plan { return Failed(Unobservable); }
      var observed := Observe(Current(), plan, domain, f.first);
      if observed.None? { return Failed(Unobservable); }
      match observed.value {
        case Foreign => return Failed(Conflict);
        case Drift(m) =>
          if m.revision != expected { return Failed(Stale); }
          return Failed(Drifted);
        case Managed(m) =>
          if m.revision != expected { return Failed(Stale); }
          if !m.status.StatusActive? || !m.enabled { return Failed(Drifted); }
          return Ok(false, m);
        case Absent =>
          if expected != AbsentWord { return Failed(Stale); }
      }
      sites, entries := Put(sites, domain, r.site), Put(entries, domain, r.entry);
      applies := applies + [domain];
      if !r.ok { return Failed(OperationFailed); }
      var again := Observe(Current(), plan, domain, f.second);
      if again.None? { return Failed(Unobservable); }
      if !again.value.Managed? || !again.value.mapping.status.StatusActive? || !again.value.mapping.enabled {
        if again.value.Foreign? { return Failed(Conflict); }
        return Failed(Drifted);
      }
      return Ok(true, again.value.mapping);
    }
  }

  // ---- the client ---------------------------------------------------------

  datatype Item = Item(domain: string, revision: Revision)

  predicate OnlyItem(inventory: seq<Item>, domain: string, revision: Revision) {
    exists i :: 0 <= i < |inventory| && inventory[i] == Item(domain, revision) &&
                forall j :: 0 <= j < |inventory| && inventory[j].domain == domain ==> j == i
  }

  /** The items of a domain. */
  function Matching(inventory: seq<Item>, domain: string): seq<Item> {
    if inventory == [] then []
    else
      var n := |inventory| - 1;
      Matching(inventory[..n], domain) + if inventory[n].domain == domain then [inventory[n]] else []
  }

  /** The revision a client sends: that of the one item, the word for an absent one, or none on a faulty inventory. */
  function Chosen(inventory: seq<Item>, domain: string): Option<Revision> {
    var items := Matching(inventory, domain);
    if items == [] then Some(AbsentWord)
    else if |items| == 1 && items[0].revision.Digest? then Some(items[0].revision)
    else None
  }

  /** `remoteDeployDomainEnsureExpectedRevision`. */
  method ExpectedRevision(inventory: seq<Item>, domain: string) returns (r: Option<Revision>)
    ensures r == Chosen(inventory, domain)
    ensures r == Some(AbsentWord) <==> forall i :: 0 <= i < |inventory| ==> inventory[i].domain != domain
    ensures r.Some? && r.value != AbsentWord ==> r.value.Digest? && OnlyItem(inventory, domain, r.value)
    ensures r.None? <==>
      || (exists i, j :: 0 <= i < j < |inventory| && inventory[i].domain == domain && inventory[j].domain == domain)
      || (exists i :: 0 <= i < |inventory| && inventory[i].domain == domain && !inventory[i].revision.Digest?)
  {
    hide Matching, OnlyItem;
    var found: Option<nat> := None;
    NoneMatching(inventory, domain);
    for index := 0 to |inventory|
      invariant found.None? ==> forall i :: 0 <= i < index ==> inventory[i].domain != domain
      invariant found.Some? ==> found.value < index && inventory[found.value].domain == domain
      invariant found.Some? ==> forall i :: 0 <= i < index && inventory[i].domain == domain ==> i == found.value
      invariant Matching(inventory[..index], domain) == if found.None? then [] else [inventory[found.value]]
    {
      MatchingStep(inventory, domain, index);
      if inventory[index].domain == domain {
        if found.Some? {
          assert found.value < index && inventory[found.value].domain == domain;
          MatchingGrows(inventory, domain, index + 1);
          return None;
        }
        found := Some(index);
      }
    }
    assert inventory[..|inventory|] == inventory;
    if found.None? { return Some(AbsentWord); }
    if !inventory[found.value].revision.Digest? { return None; }
    assert OnlyItem(inventory, domain, inventory[found.value].revision) by {
      OnlyItemAt(inventory, domain, found.value);
    }
    return Some(inventory[found.value].revision);
  }

  lemma OnlyItemAt(inventory: seq<Item>, domain: string, k: nat)
    requires k < |inventory| && inventory[k].domain == domain
    requires forall i :: 0 <= i < |inventory| && inventory[i].domain == domain ==> i == k
    ensures OnlyItem(inventory, domain, inventory[k].revision)
  {
    assert inventory[k] == Item(domain, inventory[k].revision);
  }

  lemma NoneMatching(inventory: seq<Item>, domain: string)
    ensures Matching(inventory[..0], domain) == []
  {}

  lemma MatchingStep(inventory: seq<Item>, domain: string, k: nat)
    requires k < |inventory|
    ensures Matching(inventory[..k + 1], domain) ==
            Matching(inventory[..k], domain) + if inventory[k].domain == domain then [inventory[k]] else []
  {
    assert inventory[..k + 1][..k] == inventory[..k];
  }

  lemma {:induction false} MatchingGrows(inventory: seq<Item>, domain: string, k: nat)
    requires k <= |inventory|
    ensures |Matching(inventory[..k], domain)| <= |Matching(inventory, domain)|
    decreases |inventory|
  {
    if k < |inventory| {
      var shorter := inventory[..|inventory| - 1];
      assert shorter[..k] == inventory[..k];
      MatchingGrows(shorter, domain, k);
    } else {
      assert inventory[..k] == inventory;
    }
  }

  const MAX_DOMAINS := 64

  /** `inventoryLocked` over the site files in some order: what the target owns; a domain whose observation fails is
      left out. */
  function InventoryOf(w: World, plan: Plan, names: seq<string>, faulty: set<string>): seq<Item> {
    if names == [] then []
    else
      var n := |names| - 1;
      var domain := names[n];
      InventoryOf(w, plan, names[..n], faulty) + OwnItem(w, plan, domain, domain in faulty)
  }

  function OwnItem(w: World, plan: Plan, domain: string, skipped: bool): seq<Item> {
    match Observe(w, plan, domain, skipped)
    case Some(Managed(m)) => [Item(domain, m.revision)]
    case Some(Drift(m)) => [Item(domain, m.revision)]
    case _ => []
  }

  /** The names are those of the site files, each once. */
  ghost predicate IsDirectory(w: World, names: seq<string>) {
    && (forall d :: d in names <==> d in w.sites)
    && Distinct(names)
  }

  /** What a client learns of a domain; `skipped` when its observation failed. */
  function Listed(w: World, plan: Plan, domain: string, skipped: bool): Revision {
    match Observe(w, plan, domain, skipped)
    case Some(Managed(m)) => m.revision
    case Some(Drift(m)) => m.revision
    case _ => AbsentWord
  }

  lemma {:induction false} MatchingNames(w: World, plan: Plan, names: seq<string>, faulty: set<string>, domain: string)
    requires Distinct(names)
    ensures var items := Matching(InventoryOf(w, plan, names, faulty), domain);
      items == if domain in names && Listed(w, plan, domain, domain in faulty).Digest?
               then [Item(domain, Listed(w, plan, domain, domain in faulty))] else []
    decreases |names|
  {
    if names == [] {
      assert Matching([], domain) == [];
    } else {
      var n := |names| - 1;
      var name, before := names[n], InventoryOf(w, plan, names[..n], faulty);
      var listed := Listed(w, plan, name, name in faulty);
      assert InventoryOf(w, plan, names, faulty) == before + OwnItem(w, plan, name, name in faulty);
      hide InventoryOf, OwnItem, Listed, Matching, Observe;
      MatchingNames(w, plan, names[..n], faulty, domain);
      OwnItemIsListed(w, plan, name, name in faulty);
      assert domain in names <==> domain in names[..n] || domain == name;
      assert domain == name ==> domain !in names[..n];
      if listed.Digest? {
        MatchingAppend(before, Item(name, listed), domain);
      } else {
        assert before + [] == before;
      }
    }
  }

  lemma MatchingAppend(inventory: seq<Item>, item: Item, domain: string)
    ensures Matching(inventory + [item], domain) ==
            Matching(inventory, domain) + if item.domain == domain then [item] else []
  {
    assert (inventory + [item])[..|inventory|] == inventory;
  }

  lemma OwnItemIsListed(w: World, plan: Plan, domain: string, skipped: bool)
    ensures var listed := Listed(w, plan, domain, skipped);
      OwnItem(w, plan, domain, skipped) == if listed.Digest? then [Item(domain, listed)] else []
  {
    hide Owned, Upstream, RevisionInput, Linked;
  }

  lemma ListedIsDigest(w: World, plan: Plan, domain: string, skipped: bool)
    ensures Listed(w, plan, domain, skipped) == AbsentWord || Listed(w, plan, domain, skipped).Digest?
    ensures Listed(w, plan, domain, skipped).Digest? ==> domain in w.sites
  {
    hide Owned, Upstream, RevisionInput, Linked;
  }

  /** The client's lookup in the agent's inventory yields what the agent observed of the domain. */
  lemma InventoryAnswers(w: World, plan: Plan, names: seq<string>, faulty: set<string>, domain: string)
    requires IsDirectory(w, names)
    ensures Chosen(InventoryOf(w, plan, names, faulty), domain) == Some(Listed(w, plan, domain, domain in faulty))
  {
    MatchingNames(w, plan, names, faulty, domain);
    ListedIsDigest(w, plan, domain, domain in faulty);
    hide Observe, Listed, InventoryOf, Matching;
  }

  // ---- one call -----------------------------------------------------------

  /** Success always carries a healthy mapping of the world it leaves; the runtime is called only when neither the
      site file nor the enabled entry exists; no other domain is touched. */
  lemma EnsureIsSound(w: World, allow: bool, plan: Plan, domain: string, expected: Revision, r: Runtime, f: Faults)
    requires 1 <= plan.port <= 65535
    ensures var o := Ensured(w, allow, plan, domain, expected, r, f);
      && (o.receipt.Ok? ==> Healthy(o.world, plan, domain, o.receipt.observation) && (o.receipt.changed <==> o.applied))
      && (o.applied ==> domain !in w.sites && domain !in w.entries && expected == AbsentWord)
      && (!o.applied ==> o.world == w)
      && o.world.sites - {domain} == w.sites - {domain} && o.world.entries - {domain} == w.entries - {domain}
  {
    hide Owned, Upstream, RevisionInput;
  }

  /** A mapping that a client may be told of: healthy, for the plan's port, in a file within the limit. */
  predicate Reportable(w: World, plan: Plan, domain: string, m: Mapping) {
    Healthy(w, plan, domain, m) && m.desiredPort == plan.port && |w.sites[domain].text| <= MAX_CONFIG
  }

  /** Success, exactly. A change is reported exactly when the domain was absent and named so, nothing failed, and the
      runtime left a reportable mapping; no change exactly when there was one already and its revision was named. */
  lemma EnsureOkIff(w: World, allow: bool, plan: Plan, domain: string, expected: Revision, r: Runtime, f: Faults,
      m: Mapping)
    requires 1 <= plan.port <= 65535
    ensures Ensured(w, allow, plan, domain, expected, r, f).receipt == Ok(true, m) <==>
      && allow && !f.plan && !f.first && domain !in w.sites && domain !in w.entries && expected == AbsentWord
      && r.ok && !f.second && Reportable(AfterApply(w, domain, r), plan, domain, m)
    ensures Ensured(w, allow, plan, domain, expected, r, f).receipt == Ok(false, m) <==>
      allow && !f.plan && !f.first && Reportable(w, plan, domain, m) && expected == m.revision
  {
    ManagedIffHealthy(w, plan, domain, m);
    ManagedIffHealthy(AfterApply(w, domain, r), plan, domain, m);
    ObservedStates(w, plan, domain);
    var after := AfterApply(w, domain, r);
    ManagedIsActive(w, plan, domain);
    ManagedIsActive(after, plan, domain);
    assert f.first ==> Observe(w, plan, domain, f.first).None?;
    assert f.second ==> Observe(after, plan, domain, f.second).None?;
    hide Owned, Upstream, RevisionInput, Linked, Healthy, Observe, AfterApply;
  }

  lemma ManagedIsActive(w: World, plan: Plan, domain: string)
    ensures var o := Observe(w, plan, domain, false);
      o.Some? && o.value.Managed? ==>
        o.value.mapping.status.StatusActive? && o.value.mapping.enabled && o.value.mapping.revision.Digest?
  {
    hide Owned, Upstream, RevisionInput, Linked;
  }

  /** A client whose inventory is still current is refused as stale exactly when that inventory had skipped a domain
      the target owns. */
  lemma FreshStaleIff(w: World, allow: bool, plan: Plan, domain: string, skipped: bool, r: Runtime, f: Faults)
    ensures Ensured(w, allow, plan, domain, Listed(w, plan, domain, skipped), r, f).receipt == Failed(Stale) <==>
      skipped && allow && !f.plan && !f.first && Listed(w, plan, domain, false).Digest?
  {
    hide Owned, Upstream, RevisionInput;
  }

  /** A site file that only says whose it is. */
  function OwnText(target: string, domain: string): string {
    "# hserver-project-target: " + Owner(target) + "\n" + "# hserver-project-domain: " + domain + "\n"
  }

  lemma OwnTextIsOwned(target: string, domain: string)
    ensures Owned(OwnText(target, domain), target, domain)
  {
    var first := "# hserver-project-target: " + Owner(target) + "\n";
    var second := "# hserver-project-domain: " + domain + "\n";
    var text := OwnText(target, domain);
    assert text == first + second;
    assert first <= text[0..] && second <= text[|first|..];
  }

  /** An inventory that skipped an owned domain: the client that read it is told that it is stale, although nothing
      changed and nothing fails any more. */
  lemma SkippedIsStale(plan: Plan, domain: string, r: Runtime)
    requires |OwnText(plan.target, domain)| <= MAX_CONFIG
    ensures var w := World(map[domain := Regular(OwnText(plan.target, domain))], map[]);
      var expected := Chosen(InventoryOf(w, plan, [domain], {domain}), domain);
      && expected == Some(AbsentWord) && Listed(w, plan, domain, false).Digest?
      && Ensured(w, true, plan, domain, expected.value, r, Faults(false, false, false)).receipt == Failed(Stale)
  {
    var w := World(map[domain := Regular(OwnText(plan.target, domain))], map[]);
    OwnTextIsOwned(plan.target, domain);
    hide Owned, OwnText, Upstream, RevisionInput, Linked;
    assert Listed(w, plan, domain, false).Digest? && Listed(w, plan, domain, true) == AbsentWord;
    hide Observe, Ensured, InventoryOf, Chosen, Listed;
    InventoryAnswers(w, plan, [domain], {domain}, domain);
    FreshStaleIff(w, true, plan, domain, true, r, Faults(false, false, false));
  }

  /** Whatever a successful ensure did, asking again from a fresh inventory changes nothing and returns the same
      mapping. */
  lemma EnsureIsIdempotent(w: World, plan: Plan, domain: string, expected: Revision, r: Runtime, f: Faults,
      again: Runtime)
    requires 1 <= plan.port <= 65535 && Ensured(w, true, plan, domain, expected, r, f).receipt.Ok?
    ensures var o := Ensured(w, true, plan, domain, expected, r, f);
      Ensured(o.world, true, plan, domain, Listed(o.world, plan, domain, false), again, Faults(false, false, false)) ==
        Outcome(o.world, Ok(false, o.receipt.observation), false)
  {
    hide Owned, Upstream, RevisionInput;
  }

  // ---- any number of clients ----------------------------------------------

  /** One event: a client reads the inventory, a client's request arrives (perhaps again), or somebody edits files. */
  datatype Event =
    | Inventory(client: nat, plan: Plan, domain: string, names: seq<string>, faulty: set<string>)
    | Request(client: nat, plan: Plan, domain: string, r: Runtime, f: Faults)
    | Others(after: World)

  datatype System = System(world: World, held: map<(nat, string), Revision>)

  /** Requests carry whatever revision the client holds, however old; others delete nothing. */
  ghost predicate Possible(sys: System, e: Event) {
    match e
    case Inventory(_, _, _, names, _) => IsDirectory(sys.world, names)
    case Request(client, plan, domain, _, _) => (client, domain) in sys.held && 1 <= plan.port <= 65535
    case Others(after) => sys.world.sites.Keys <= after.sites.Keys && sys.world.entries.Keys <= after.entries.Keys
  }

  function Next(sys: System, e: Event): System {
    match e
    case Inventory(client, plan, domain, names, faulty) =>
      var items := InventoryOf(sys.world, plan, names, faulty);
      var chosen := Chosen(items, domain);
      if |items| > MAX_DOMAINS || chosen.None? then sys
      else sys.(held := sys.held[(client, domain) := chosen.value])
    case Request(client, plan, domain, r, f) =>
      if (client, domain) !in sys.held then sys
      else sys.(world := Ensured(sys.world, true, plan, domain, sys.held[(client, domain)], r, f).world)
    case Others(after) => sys.(world := after)
  }

  /** The event reports that it changed the domain. */
  predicate Changes(sys: System, e: Event, domain: string) {
    e.Request? && e.domain == domain && (e.client, e.domain) in sys.held &&
    var receipt := Ensured(sys.world, true, e.plan, e.domain, sys.held[(e.client, e.domain)], e.r, e.f).receipt;
    receipt.Ok? && receipt.changed
  }

  ghost predicate Run(systems: seq<System>, events: seq<Event>) {
    && |systems| == |events| + 1
    && forall i :: 0 <= i < |events| ==>
        Possible(systems[i], events[i]) && systems[i + 1] == Next(systems[i], events[i])
  }

  lemma StepKeepsSite(sys: System, e: Event, domain: string)
    requires Possible(sys, e)
    ensures domain in sys.world.sites ==> domain in Next(sys, e).world.sites
    ensures Changes(sys, e, domain) ==> domain !in sys.world.sites && domain in Next(sys, e).world.sites
  {
    hide Observe, Ensured, Healthy, InventoryOf, Chosen;
    if e.Request? {
      EnsureIsSound(sys.world, true, e.plan, e.domain, sys.held[(e.client, e.domain)], e.r, e.f);
      SuccessHasSite(sys.world, e.plan, e.domain, sys.held[(e.client, e.domain)], e.r, e.f);
      var after := Next(sys, e).world;
      assert after.sites - {e.domain} == sys.world.sites - {e.domain};
      assert domain != e.domain ==> (domain in after.sites - {e.domain} <==> domain in sys.world.sites);
    }
  }

  lemma SuccessHasSite(w: World, plan: Plan, domain: string, expected: Revision, r: Runtime, f: Faults)
    requires 1 <= plan.port <= 65535
    ensures var o := Ensured(w, true, plan, domain, expected, r, f);
      && (o.receipt.Ok? ==> domain in o.world.sites)
      && (domain in w.sites ==> domain in o.world.sites && !o.applied)
  {
    hide Owned, Upstream, RevisionInput;
    EnsureIsSound(w, true, plan, domain, expected, r, f);
  }

  lemma {:induction false} SiteStays(systems: seq<System>, events: seq<Event>, domain: string, i: nat, j: nat)
    requires Run(systems, events) && i <= j <= |events| && domain in systems[i].world.sites
    ensures domain in systems[j].world.sites
    decreases j - i
  {
    hide Next, Possible;
    if i < j {
      StepKeepsSite(systems[i], events[i], domain);
      SiteStays(systems, events, domain, i + 1, j);
    }
  }

  /** For any number of clients, any order, lost or repeated requests and edits by others that delete nothing: at most
      one request per domain ever reports that it changed it. */
  lemma ChangedOnce(systems: seq<System>, events: seq<Event>, domain: string, i: nat, j: nat)
    requires Run(systems, events) && i < j < |events|
    requires Changes(systems[i], events[i], domain)
    ensures !Changes(systems[j], events[j], domain)
  {
    hide Next, Possible, Changes;
    StepKeepsSite(systems[i], events[i], domain);
    SiteStays(systems, events, domain, i + 1, j);
    StepKeepsSite(systems[j], events[j], domain);
  }
}
