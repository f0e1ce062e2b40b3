/** Nginx site files and their switches: edit, test, then reload or put back. The configuration test is a fixed
    predicate on what the enabled directory shows; it may also fail for a reason of its own. */
module Nginx {
  import opened Text
  import Utf8

  type Content = seq<Byte>

  const MAX_CONFIG_BYTES := 0x20_0000

  /** Valid UTF-8 without control characters other than newline, return and tab. */
  predicate PlainText(content: Content) {
    Utf8.Valid(content) && forall i :: 0 <= i < |content| ==> content[i] >= 0x20 || content[i] in {9, 10, 13}
  }

  /** `validManagedTextContent`. */
  method ValidText(content: Content) returns (ok: bool)
    ensures ok <==> PlainText(content)
  {
    if !Utf8.Valid(content) { return false; }
    for i := 0 to |content|
      invariant forall k :: 0 <= k < i ==> content[k] >= 0x20 || content[k] in {9, 10, 13}
    {
      if content[i] < 0x20 && content[i] != 10 && content[i] != 13 && content[i] != 9 { return false; }
    }
    return true;
  }

  /** What a site file may be replaced by. */
  predicate Writable(content: Content) { |content| <= MAX_CONFIG_BYTES && PlainText(content) }

  /** An entry of the enabled directory: a symlink (its text and the site file it resolves to) or anything else. */
  datatype Entry = Link(text: string, target: string) | Foreign(content: Content)

  datatype Sites = Sites(available: map<string, Content>, enabled: map<string, Entry>)

  /** What an enabled name shows the server; a dangling link shows nothing. */
  function Shown(s: Sites, e: Entry): Option<Content> {
    match e
    case Foreign(content) => Some(content)
    case Link(_, target) => if target in s.available then Some(s.available[target]) else None
  }

  type View = map<string, Option<Content>>

  function Effective(s: Sites): View {
    map n | n in s.enabled :: Shown(s, s.enabled[n])
  }

  predicate NameStart(c: char) { 'a' <= c <= 'z' || 'A' <= c <= 'Z' || '0' <= c <= '9' }

  /** `^[a-zA-Z0-9][a-zA-Z0-9._-]{0,254}$`. */
  predicate SiteName(s: string) {
    1 <= |s| <= 255 && NameStart(s[0]) && forall i :: 1 <= i < |s| ==> NameStart(s[i]) || s[i] in {'.', '_', '-'}
  }

  /** The checksum a client sends; digests are taken to be collision-free. */
  datatype Checksum = Malformed | Of(content: Content)

  datatype Faults = Faults(backup: bool, replace: bool, link: bool, test: bool, reload: bool)

  datatype Result = Done | Already | BadRequest | Unavailable | Changed | NotManaged | TestFailed | ReloadFailed

  function SiteLink(name: string): Entry { Link(name, name) }

  /** `readManagedFile`: a file over the limit is not read. */
  predicate Readable(s: Sites, name: string) { name in s.available && |s.available[name]| <= MAX_CONFIG_BYTES }

  /** `Write`: the validation link is present only while the test runs. */
  function Written(s: Sites, check: View -> bool, name: string, content: Content, expected: Checksum, reload: bool,
                   validation: string, f: Faults): (Sites, Result)
  {
    if !SiteName(name) || expected.Malformed? || !Writable(content) then (s, BadRequest)
    else if !Readable(s, name) then (s, Unavailable)
    else if expected != Of(s.available[name]) then (s, Changed)
    else if f.backup || f.replace then (s, Unavailable)
    else
      var replaced := s.(available := s.available[name := content]);
      if name !in s.enabled && f.link then (s, Unavailable)
      else if f.test || !check(Effective(Tested(replaced, name, validation))) then (s, TestFailed)
      else if reload && f.reload then (replaced, ReloadFailed)
      else (replaced, Done)
  }

  /** The sites as the test sees them. */
  function Tested(s: Sites, name: string, validation: string): Sites {
    if name in s.enabled then s else s.(enabled := s.enabled[validation := SiteLink(name)])
  }

  /** `Action` of the domain controller. */
  function Switched(s: Sites, check: View -> bool, name: string, enable: bool, f: Faults): (Sites, Result) {
    if !SiteName(name) then (s, BadRequest)
    else if name !in s.available then (s, Unavailable)
    else if enable then
      if name in s.enabled then
        (s, if s.enabled[name].Link? && s.enabled[name].target == name then Already else NotManaged)
      else if f.link then (s, Unavailable)
      else
        var on := s.(enabled := s.enabled[name := SiteLink(name)]);
        if f.test || !check(Effective(on)) then (s, TestFailed)
        else if f.reload then (s, ReloadFailed)
        else (on, Done)
    else
      if name !in s.enabled then (s, Already)
      else if !s.enabled[name].Link? || s.enabled[name].target != name then (s, NotManaged)
      else if f.link then (s, Unavailable)
      else
        var off := s.(enabled := s.enabled - {name});
        if f.test || !check(Effective(off)) then (s, TestFailed)
        else if f.reload then (s, ReloadFailed)
        else (off, Done)
  }

  class NginxController {
    const check: View -> bool
    var available: map<string, Content>
    var enabled: map<string, Entry>

    constructor (check: View -> bool, s: Sites)
      ensures this.check == check && Current() == s
    {
      this.check, available, enabled := check, s.available, s.enabled;
    }

    function Current(): Sites
      reads this
    {
      Sites(available, enabled)
    }

    /** `nginx -t` on the directory as it is now. */
    method Test(fault: bool) returns (ok: bool)
      ensures ok == (!fault && check(Effective(Current())))
    {
      ok := !fault && check(Effective(Current()));
    }

    method Write(name: string, content: Content, expected: Checksum, reload: bool, validation: string, f: Faults)
        returns (result: Result)
      requires validation !in enabled && validation != name
      modifies this`available, this`enabled
      ensures (Current(), result) == Written(old(Current()), check, name, content, expected, reload, validation, f)
    {
      hide PlainText, SiteName, Effective;
      if !SiteName(name) || expected.Malformed? || |content| > MAX_CONFIG_BYTES { return BadRequest; }
      var plain := ValidText(content);
      if !plain { return BadRequest; }
      if name !in available || |available[name]| > MAX_CONFIG_BYTES { return Unavailable; }
      var current := available[name];
      if expected != Of(current) { return Changed; }
      if f.backup { return Unavailable; }
      if f.replace { return Unavailable; }
      available := available[name := content];
      var linked := name !in enabled;
      ghost var before := enabled;
      if linked {
        if f.link {
          available := available[name := current];
          assert available == old(available);
          return Unavailable;
        }
        enabled := enabled[validation := SiteLink(name)];
      }
      assert Current() == Tested(Sites(available, before), name, validation);
      var ok := Test(f.test);
      if !ok {
        available := available[name := current];
        assert available == old(available);
        result := TestFailed;
      } else if reload && f.reload {
        result := ReloadFailed;
      } else {
        result := Done;
      }
      if linked {
        enabled := enabled - {validation};
        assert enabled == before;
      }
    }

    method Switch(name: string, enable: bool, f: Faults) returns (result: Result)
      modifies this`enabled
      ensures (Current(), result) == Switched(old(Current()), check, name, enable, f)
    {
      if !SiteName(name) { return BadRequest; }
      if name !in available { return Unavailable; }
      if enable {
        if name in enabled {
          if !enabled[name].Link? || enabled[name].target != name { return NotManaged; }
          return Already;
        }
        if f.link { return Unavailable; }
        enabled := enabled[name := SiteLink(name)];
        var ok := Test(f.test);
        if !ok || f.reload {
          enabled := enabled - {name};
          assert enabled == old(enabled);
          return if ok then ReloadFailed else TestFailed;
        }
        return Done;
      }
      if name !in enabled { return Already; }
      if !enabled[name].Link? || enabled[name].target != name { return NotManaged; }
      var original := enabled[name].text;
      if f.link { return Unavailable; }
      enabled := enabled - {name};
      var ok := Test(f.test);
      if !ok || f.reload {
        enabled := enabled[name := Link(original, name)];
        assert enabled == old(enabled);
        return if ok then ReloadFailed else TestFailed;
      }
      return Done;
    }
  }

  // ---- what every run keeps -----------------------------------------------

  predicate Passes(s: Sites, check: View -> bool) { check(Effective(s)) }

  /** The written file is enabled under another name only. */
  predicate Aliased(s: Sites, name: string) {
    name !in s.enabled && exists n :: n in s.enabled && s.enabled[n].Link? && s.enabled[n].target == name
  }

  // ---- what one call does -------------------------------------------------

  /** What the enabled names show while a file holds some content; a link to an absent file shows nothing. */
  function ShownWith(s: Sites, name: string, content: Content): View {
    map n | n in s.enabled ::
      match s.enabled[n]
      case Foreign(own) => Some(own)
      case Link(_, target) =>
        if target == name then Some(content) else if target in s.available then Some(s.available[target]) else None
  }

  /** What is tested during a write: the new content under every link to the file, and under the temporary name when the
      file is not enabled under its own. */
  function WriteView(s: Sites, name: string, content: Content, validation: string): View {
    if name in s.enabled then ShownWith(s, name, content) else ShownWith(s, name, content)[validation := Some(content)]
  }

  lemma TestedView(s: Sites, name: string, content: Content, validation: string)
    ensures Effective(Tested(s.(available := s.available[name := content]), name, validation)) ==
            WriteView(s, name, content, validation)
  {
    var after := s.(available := s.available[name := content]);
    assert Effective(after) == ShownWith(s, name, content);
    if name !in s.enabled {
      var tested := Tested(after, name, validation);
      assert Effective(tested) == ShownWith(s, name, content)[validation := Some(content)];
    }
  }

  /** A request that names an existing, readable file, its content and an acceptable new one. */
  predicate Current(s: Sites, name: string, content: Content, expected: Checksum) {
    SiteName(name) && Writable(content) && Readable(s, name) && expected == Of(s.available[name])
  }

  /** A write puts the content into its file and changes nothing else exactly when it is done or only the reload failed;
      every other result leaves both directories as they were. It is done exactly when the request is current, nothing
      on the way fails, and what it tests passes. */
  lemma WriteDoneIff(s: Sites, check: View -> bool, name: string, content: Content, expected: Checksum, reload: bool,
                     validation: string, f: Faults)
    ensures var (after, result) := Written(s, check, name, content, expected, reload, validation, f);
      var passed :=
        && Current(s, name, content, expected) && !f.backup && !f.replace && (name !in s.enabled ==> !f.link)
        && !f.test && check(WriteView(s, name, content, validation));
      && (result == Done <==> passed && !(reload && f.reload))
      && (result == ReloadFailed <==> passed && reload && f.reload)
      && (result == Changed <==>
            SiteName(name) && Writable(content) && expected.Of? && Readable(s, name) &&
                expected != Of(s.available[name]))
      && after.enabled == s.enabled
      && after.available == if result == Done || result == ReloadFailed then s.available[name := content]
          else s.available
  {
    TestedView(s, name, content, validation);
    hide SiteName, Writable, Effective, Tested, ShownWith;
  }

  /** A switch is done exactly when the site exists, is not in the wanted state yet, is not shadowed by something else,
      nothing fails, and the directory with the one link more or less passes. It has nothing to do exactly when the site
      is in that state, and refuses exactly when the entry of that name is not the site's own link. */
  lemma SwitchDoneIff(s: Sites, check: View -> bool, name: string, enable: bool, f: Faults)
    ensures var (after, result) := Switched(s, check, name, enable, f);
      var known := SiteName(name) && name in s.available;
      var own := name in s.enabled && s.enabled[name].Link? && s.enabled[name].target == name;
      && (result == Done <==>
            && known && (if enable then name !in s.enabled else own) && !f.link && !f.test && !f.reload
            && check(if enable then Effective(s)[name := Some(s.available[name])] else Effective(s) - {name}))
      && (result == Already <==> known && if enable then own else name !in s.enabled)
      && (result == NotManaged <==> known && name in s.enabled && !own)
      && (result == Done && enable ==> after.enabled == s.enabled[name := SiteLink(name)])
      && (result == Done && !enable ==> after.enabled == s.enabled - {name})
  {
    if name in s.available {
      var on := s.(enabled := s.enabled[name := SiteLink(name)]);
      assert Effective(on) == Effective(s)[name := Some(s.available[name])];
      assert Effective(s.(enabled := s.enabled - {name})) == Effective(s) - {name};
    }
    hide SiteName, Effective;
  }

  /** A failed switch leaves the directory as it was, and a switch never ends in a state that fails the test. */
  lemma SwitchKeepsPassing(s: Sites, check: View -> bool, name: string, enable: bool, f: Faults)
    ensures var (after, result) := Switched(s, check, name, enable, f);
      && after.available == s.available
      && (result != Done ==> after == s)
      && (result == Done ==> Passes(after, check) && (name in after.enabled <==> enable)
                             && after.enabled - {name} == s.enabled - {name})
      && (Passes(s, check) ==> Passes(after, check))
  {}

  lemma UnlinkedContent(s: Sites, name: string, content: Content)
    requires forall n :: n in s.enabled && s.enabled[n].Link? ==> s.enabled[n].target != name
    ensures Effective(s.(available := s.available[name := content])) == Effective(s)
  {}

  /** A write keeps the enabled sites passing unless its file is enabled under another name only. */
  lemma WriteKeepsPassing(s: Sites, check: View -> bool, name: string, content: Content, expected: Checksum,
                          reload: bool, validation: string, f: Faults)
    requires Passes(s, check) && !Aliased(s, name)
    ensures Passes(Written(s, check, name, content, expected, reload, validation, f).0, check)
  {
    if name !in s.enabled { UnlinkedContent(s, name, content); }
  }

  /** A test that any extra entry of a given name satisfies. */
  function AcceptsExtra(base: View, extra: string): View -> bool {
    (m: View) => m == base || extra in m
  }

  const NO_FAULTS := Faults(false, false, false, false, false)

  /** The exception is real: for every layout in which the file is enabled under another name only, there is a test
      that the sites pass before and fail after a write reported as done, because the validation link that was
      tested along is gone again. */
  lemma AliasBreaks(s: Sites, name: string, content: Content, validation: string)
    requires SiteName(name) && Readable(s, name) && Aliased(s, name) && Writable(content)
    requires content != s.available[name] && validation !in s.enabled
    ensures var check := AcceptsExtra(Effective(s), validation);
      var (after, result) := Written(s, check, name, content, Of(s.available[name]), true, validation, NO_FAULTS);
      Passes(s, check) && result == Done && !Passes(after, check)
  {
    var check := AcceptsExtra(Effective(s), validation);
    var after := s.(available := s.available[name := content]);
    assert validation in Effective(Tested(after, name, validation));
    var n :| n in s.enabled && s.enabled[n].Link? && s.enabled[n].target == name;
    assert Effective(after)[n] == Some(content) && Effective(s)[n] == Some(s.available[name]);
    assert validation !in Effective(after);
  }

  /** A write is safe for every possible test exactly when its file is not enabled under another name only. */
  lemma WriteSafeIff(s: Sites, name: string, validation: string)
    requires SiteName(name) && Readable(s, name) && validation !in s.enabled
    ensures !Aliased(s, name) <==>
      forall check: View -> bool, content: Content, f: Faults ::
        Passes(s, check) ==>
          Passes(Written(s, check, name, content, Of(s.available[name]), true, validation, f).0, check)
  {
    if Aliased(s, name) {
      var content: Content := if s.available[name] == [] then [10] else [];
      assert Utf8.Valid([]) && Utf8.Valid([10]);
      AliasBreaks(s, name, content, validation);
    } else {
      forall check: View -> bool, content: Content, f: Faults | Passes(s, check)
        ensures Passes(Written(s, check, name, content, Of(s.available[name]), true, validation, f).0, check)
      {
        WriteKeepsPassing(s, check, name, content, Of(s.available[name]), true, validation, f);
      }
    }
  }

  /** The new content is part of what is tested unless an entry of the same name shows something else. */
  predicate Covered(s: Sites, name: string) {
    name !in s.enabled || exists n :: n in s.enabled && s.enabled[n].Link? && s.enabled[n].target == name
  }

  /** Where it is not part of it, every acceptable content whatsoever is written and reported as done. */
  lemma UncoveredWriteIsUntested(s: Sites, check: View -> bool, name: string, content: Content, validation: string)
    requires SiteName(name) && Readable(s, name) && Writable(content) && !Covered(s, name) && Passes(s, check)
    ensures Written(s, check, name, content, Of(s.available[name]), true, validation, NO_FAULTS) ==
            (s.(available := s.available[name := content]), Done)
  {
    UnlinkedContent(s, name, content);
  }

  datatype Event =
    | Write(name: string, content: Content, expected: Checksum, reload: bool, validation: string, f: Faults)
    | Switch(name: string, enable: bool, f: Faults)

  function Next(s: Sites, check: View -> bool, e: Event): Sites {
    match e
    case Write(name, content, expected, reload, validation, f) =>
      Written(s, check, name, content, expected, reload, validation, f).0
    case Switch(name, enable, f) => Switched(s, check, name, enable, f).0
  }

  function Run(s: Sites, check: View -> bool, events: seq<Event>): Sites
    decreases |events|
  {
    if events == [] then s else Run(Next(s, check, events[0]), check, events[1..])
  }

  /** No write of the run meets a file that is at that moment enabled under another name only. */
  predicate NoAliasedWrite(s: Sites, check: View -> bool, events: seq<Event>)
    decreases |events|
  {
    events == [] ||
    ((events[0].Write? ==> !Aliased(s, events[0].name)) &&
        NoAliasedWrite(Next(s, check, events[0]), check, events[1..]))
  }

  /** Enabled sites that pass the test pass it after every sequence of writes, enables and disables without such
      a write, whichever tests, reloads or file operations fail on the way. */
  lemma {:induction false} RunsStayPassing(s: Sites, check: View -> bool, events: seq<Event>)
    requires Passes(s, check) && NoAliasedWrite(s, check, events)
    ensures Passes(Run(s, check, events), check)
    decreases |events|
  {
    if events != [] {
      match events[0] {
        case Write(name, content, expected, reload, validation, f) =>
          WriteKeepsPassing(s, check, name, content, expected, reload, validation, f);
        case Switch(name, enable, f) => SwitchKeepsPassing(s, check, name, enable, f);
      }
      hide Passes, Aliased;
      RunsStayPassing(Next(s, check, events[0]), check, events[1..]);
    }
  }

  /** Every managed link stands under the name of its own file. */
  predicate OwnNames(s: Sites) {
    forall n :: n in s.enabled && s.enabled[n].Link? ==> s.enabled[n].target == n
  }

  /** In such a layout no file is ever enabled under another name only, so that every run is covered. */
  lemma {:induction false} OwnNamesCover(s: Sites, check: View -> bool, events: seq<Event>)
    requires OwnNames(s)
    ensures NoAliasedWrite(s, check, events) && OwnNames(Run(s, check, events))
    decreases |events|
  {
    if events != [] { OwnNamesCover(Next(s, check, events[0]), check, events[1..]); }
  }

  // ---- tests for which an alias does no harm ------------------------------

  /** A test that never passes only because an entry is shown twice. */
  ghost predicate DuplicateBlind(check: View -> bool) {
    forall v: View, n: string, m: string :: n in v && m !in v && check(v[m := v[n]]) ==> check(v)
  }

  /** For such a test every write keeps the sites passing, whatever is enabled under which name. */
  lemma BlindWriteKeepsPassing(s: Sites, check: View -> bool, name: string, content: Content, expected: Checksum,
                               reload: bool, validation: string, f: Faults)
    requires Passes(s, check) && DuplicateBlind(check) && validation !in s.enabled
    ensures Passes(Written(s, check, name, content, expected, reload, validation, f).0, check)
  {
    if !Aliased(s, name) {
      WriteKeepsPassing(s, check, name, content, expected, reload, validation, f);
    } else {
      var after := s.(available := s.available[name := content]);
      var n :| n in s.enabled && s.enabled[n].Link? && s.enabled[n].target == name;
      var view := Effective(after);
      assert view[n] == Some(content);
      assert Effective(Tested(after, name, validation)) == view[validation := view[n]];
      assert n in view && validation !in view;
      assert check(view[validation := view[n]]) ==> check(view);
    }
  }

  predicate FreshLinks(s: Sites, check: View -> bool, events: seq<Event>)
    decreases |events|
  {
    events == [] ||
    ((events[0].Write? ==> events[0].validation !in s.enabled) &&
        FreshLinks(Next(s, check, events[0]), check, events[1..]))
  }

  lemma {:induction false} BlindRunsStayPassing(s: Sites, check: View -> bool, events: seq<Event>)
    requires Passes(s, check) && DuplicateBlind(check) && FreshLinks(s, check, events)
    ensures Passes(Run(s, check, events), check)
    decreases |events|
  {
    if events != [] {
      match events[0] {
        case Write(name, content, expected, reload, validation, f) =>
          BlindWriteKeepsPassing(s, check, name, content, expected, reload, validation, f);
        case Switch(name, enable, f) => SwitchKeepsPassing(s, check, name, enable, f);
      }
      hide Passes, DuplicateBlind;
      BlindRunsStayPassing(Next(s, check, events[0]), check, events[1..]);
    }
  }

  /** Exactly which writes to an aliased file leave sites that fail: those whose view passes the test with the entry
      shown twice and fails it without. */
  lemma AliasedWriteBreaksIff(s: Sites, check: View -> bool, name: string, link: string, content: Content,
      validation: string)
    requires SiteName(name) && Readable(s, name) && Writable(content) && name !in s.enabled && validation !in s.enabled
    requires link in s.enabled && s.enabled[link].Link? && s.enabled[link].target == name
    ensures var (after, result) := Written(s, check, name, content, Of(s.available[name]), true, validation, NO_FAULTS);
      var v := Effective(s.(available := s.available[name := content]));
      (result == Done && !Passes(after, check)) <==> (check(v[validation := v[link]]) && !check(v))
  {
    var after := s.(available := s.available[name := content]);
    var v := Effective(after);
    assert v[link] == Some(content);
    assert Effective(Tested(after, name, validation)) == v[validation := v[link]];
  }
}
