/** The bounded walk over a release archive: which entries are refused, what is written, and how much is expanded. */
module Archive {
  import opened Text

  // ---- path.Clean ---------------------------------------------------------

  /** Resolves path elements against those kept so far, as Go's `path.Clean` does. */
  function Resolve(parts: seq<string>, kept: seq<string>, rooted: bool): seq<string>
    decreases |parts|
  {
    if parts == [] then kept
    else
      var part, rest := parts[0], parts[1..];
      if part == "" || part == "." then Resolve(rest, kept, rooted)
      else if part == ".." then
        if kept != [] && kept[|kept| - 1] != ".." then Resolve(rest, kept[..|kept| - 1], rooted)
        else Resolve(rest, if rooted then kept else kept + [part], rooted)
      else Resolve(rest, kept + [part], rooted)
  }

  function Clean(path: string): string {
    var rooted := path != "" && path[0] == '/';
    var kept := Resolve(SplitOn(path, '/'), [], rooted);
    if rooted then "/" + JoinWith(kept, '/') else if kept == [] then "." else JoinWith(kept, '/')
  }

  /** Elements of a cleaned relative path: parents lead, and nothing is empty or a dot. */
  predicate Canonical(kept: seq<string>) {
    && (forall i :: 0 <= i < |kept| ==> kept[i] != "" && kept[i] != "." && '/' !in kept[i])
    && (forall i, j :: 0 <= i < j < |kept| && kept[j] == ".." ==> kept[i] == "..")
  }

  lemma {:induction false} ResolveCanonical(parts: seq<string>, kept: seq<string>, rooted: bool)
    requires Canonical(kept) && forall i :: 0 <= i < |parts| ==> '/' !in parts[i]
    ensures Canonical(Resolve(parts, kept, rooted))
    decreases |parts|
  {
    if parts != [] {
      var part, rest := parts[0], parts[1..];
      if part == "" || part == "." {
        ResolveCanonical(rest, kept, rooted);
      } else if part == ".." {
        if kept != [] && kept[|kept| - 1] != ".." {
          ResolveCanonical(rest, kept[..|kept| - 1], rooted);
        } else if rooted {
          ResolveCanonical(rest, kept, rooted);
        } else {
          ResolveCanonical(rest, kept + [part], rooted);
        }
      } else {
        ResolveCanonical(rest, kept + [part], rooted);
      }
    }
  }

  lemma {:induction false} SplitParts(s: string, sep: char)
    ensures forall i :: 0 <= i < |SplitOn(s, sep)| ==> sep !in SplitOn(s, sep)[i]
  {
    if s != "" { SplitParts(s[1..], sep); }
  }

  /** A relative path that cleaning leaves alone, other than the dot, has canonical elements. */
  lemma CleanPathParts(path: string)
    requires Clean(path) == path && path != "." && !("/" <= path)
    ensures Canonical(SplitOn(path, '/'))
  {
    hide Resolve;
    var parts := SplitOn(path, '/');
    SplitParts(path, '/');
    assert path == "" || path[0] != '/';
    ResolveCanonical(parts, [], false);
    var kept := Resolve(parts, [], false);
    assert kept != [];
    SplitJoin(kept, '/');
  }

  // ---- entries ------------------------------------------------------------

  datatype Kind = Directory | Regular | OtherKind

  /** One archive entry; `delivered` says whether its bytes could be read and stored. */
  datatype Entry = Entry(name: string, kind: Kind, size: int, delivered: bool)

  const MAX_EXPANDED := 0x2000_0000
  const MAX_BINARY := 0x1000_0000
  const MAX_INSTALLER := 0x20_0000
  const MAX_VERSION := 128

  function Dashed(s: string): string {
    seq(|s|, i requires 0 <= i < |s| => if s[i] == '_' then '-' else s[i])
  }

  function Root(version: string, platform: string): string { "hserver-panel-" + version + "-" + Dashed(platform) }

  datatype Asset = Asset(name: string, max: int)

  function Assets(): seq<Asset> {
    [Asset("VERSION", MAX_VERSION), Asset("hserver-agent", MAX_BINARY), Asset("agent-install.sh", MAX_INSTALLER)]
  }

  function AssetPath(root: string, k: nat): string
    requires k < 3
  {
    root + "/" + Assets()[k].name
  }

  /** Index of the wanted asset a path stands for, or 3. */
  function Wanted(root: string, path: string): (k: nat)
    ensures k <= 3
    ensures k < 3 ==> path == AssetPath(root, k)
    ensures k == 3 ==> forall i :: 0 <= i < 3 ==> path != AssetPath(root, i)
  {
    if path == AssetPath(root, 0) then 0
    else if path == AssetPath(root, 1) then 1
    else if path == AssetPath(root, 2) then 2
    else 3
  }

  lemma AssetsDiffer(root: string, i: nat, j: nat)
    requires i < 3 && j < 3 && AssetPath(root, i) == AssetPath(root, j)
    ensures i == j
  {
    var a, b := AssetPath(root, i), AssetPath(root, j);
    assert a[|root| + 1..] == Assets()[i].name && b[|root| + 1..] == Assets()[j].name;
    assert |Assets()[0].name| == 7 && |Assets()[1].name| == 13 && |Assets()[2].name| == 16;
  }

  function EntryPath(e: Entry): string {
    if e.kind.Directory? && e.name != "" && e.name[|e.name| - 1] == '/' then e.name[..|e.name| - 1] else e.name
  }

  predicate PathAllowed(root: string, e: Entry) {
    var path := EntryPath(e);
    && '\\' !in e.name && Clean(path) == path && path != "." && !("/" <= path) && !("../" <= path)
    && (path == root || root + "/" <= path)
  }

  /** Every accepted path lies under the expected root and has no empty, dot or parent element. */
  lemma AllowedPathIsInside(version: string, platform: string, e: Entry)
    requires PathAllowed(Root(version, platform), e)
    ensures var path := EntryPath(e);
      && (path == Root(version, platform) || Root(version, platform) + "/" <= path)
      && forall i :: 0 <= i < |SplitOn(path, '/')| ==> SplitOn(path, '/')[i] !in {"", ".", ".."}
  {
    hide Clean;
    var path, root := EntryPath(e), Root(version, platform);
    CleanPathParts(path);
    hide SplitOn;
    var parts := SplitOn(path, '/');
    assert root[0] == "hserver-panel-"[0];
    assert path[0] == 'h';
    assert parts[0] != ".." by { FirstPart(path, '/'); }
  }

  predicate PlainParts(parts: seq<string>) { forall i :: 0 <= i < |parts| ==> parts[i] !in {"", ".", ".."} }

  lemma {:induction false} ResolvePlain(parts: seq<string>, kept: seq<string>)
    requires PlainParts(parts)
    ensures Resolve(parts, kept, false) == kept + parts
    decreases |parts|
  {
    if parts == [] {
      assert kept + [] == kept;
    } else {
      assert parts[0] !in {"", ".", ".."};
      ResolvePlain(parts[1..], kept + [parts[0]]);
      assert kept + [parts[0]] + parts[1..] == kept + parts;
    }
  }

  lemma PlainIsClean(path: string)
    requires PlainParts(SplitOn(path, '/')) && path != "" && path[0] != '/'
    ensures Clean(path) == path
  {
    hide SplitOn, Resolve, JoinWith;
    ResolvePlain(SplitOn(path, '/'), []);
    assert [] + SplitOn(path, '/') == SplitOn(path, '/');
    JoinSplit(path, '/');
  }

  /** Exactly which entry names are accepted: without a backslash, at or under the expected root, and without an empty,
      dot or parent element. */
  lemma PathAllowedIff(version: string, platform: string, e: Entry)
    ensures var path, root := EntryPath(e), Root(version, platform);
      PathAllowed(root, e) <==>
        '\\' !in e.name && (path == root || root + "/" <= path) && PlainParts(SplitOn(path, '/'))
  {
    var path, root := EntryPath(e), Root(version, platform);
    assert root[0] == "hserver-panel-"[0] && "hserver-panel-"[0] == 'h';
    hide Clean, SplitOn;
    if PathAllowed(root, e) {
      AllowedPathIsInside(version, platform, e);
    } else if (path == root || root + "/" <= path) && PlainParts(SplitOn(path, '/')) {
      assert path[0] == 'h';
      PlainIsClean(path);
    }
  }

  lemma FirstPart(s: string, sep: char)
    requires s != "" && s[0] != sep
    ensures SplitOn(s, sep)[0] != "" && SplitOn(s, sep)[0][0] == s[0]
  {}

  /** One entry on its own: an allowed path, a known kind and, for a file, a size and delivery within its cap. */
  predicate EntryAllowed(root: string, e: Entry) {
    && PathAllowed(root, e) && !e.kind.OtherKind?
    && (e.kind.Regular? ==>
      && e.size >= 0 && e.delivered
      && (Wanted(root, e.name) < 3 ==> e.size <= Assets()[Wanted(root, e.name)].max))
  }

  function Total(entries: seq<Entry>): int {
    if entries == [] then 0
    else Total(entries[..|entries| - 1]) + (var e := entries[|entries| - 1]; if e.kind.Regular? then e.size else 0)
  }

  function Count(entries: seq<Entry>, path: string): nat {
    if entries == [] then 0
    else Count(entries[..|entries| - 1], path) +
         (var e := entries[|entries| - 1]; if e.kind.Regular? && e.name == path then 1 else 0)
  }

  /** The archives the walk lets through. */
  predicate Allowed(root: string, entries: seq<Entry>) {
    && (forall i :: 0 <= i < |entries| ==> EntryAllowed(root, entries[i]))
    && Total(entries) <= MAX_EXPANDED
    && forall k :: 0 <= k < 3 ==> Count(entries, AssetPath(root, k)) == 1
  }

  lemma {:induction false} PrefixBounds(root: string, entries: seq<Entry>, n: nat, path: string)
    requires n <= |entries|
    ensures (forall i :: 0 <= i < |entries| ==> EntryAllowed(root, entries[i])) ==>
        Total(entries[..n]) <= Total(entries)
    ensures Count(entries[..n], path) <= Count(entries, path)
    decreases |entries|
  {
    hide EntryAllowed;
    if n == |entries| {
      assert entries[..n] == entries;
    } else {
      var shorter := entries[..|entries| - 1];
      PrefixBounds(root, shorter, n, path);
      assert shorter[..n] == entries[..n];
      var last := entries[|entries| - 1];
      assert EntryAllowed(root, last) && last.kind.Regular? ==> last.size >= 0 by { SizeAllowed(root, last); }
    }
  }

  lemma SizeAllowed(root: string, e: Entry)
    ensures EntryAllowed(root, e) && e.kind.Regular? ==> e.size >= 0
  {}

  lemma StepForward(entries: seq<Entry>, n: nat, path: string)
    requires n < |entries|
    ensures var e := entries[n];
      && Total(entries[..n + 1]) == Total(entries[..n]) + (if e.kind.Regular? then e.size else 0)
      && Count(entries[..n + 1], path) == Count(entries[..n], path) +
          (if e.kind.Regular? && e.name == path then 1 else 0)
  {
    assert entries[..n + 1][..n] == entries[..n];
  }

  /** The entry loop and required-asset check of `extractAgentRelease`. It passes exactly the allowed archives; passing
      or not, it writes nothing but the three fixed names, and the running total never leaves its bounds. */
  method ExtractWalk(entries: seq<Entry>, root: string) returns (ok: bool, files: map<string, int>, expanded: int)
    ensures ok <==> Allowed(root, entries)
    ensures files.Keys <= {"VERSION", "hserver-agent", "agent-install.sh"}
    ensures 0 <= expanded <= MAX_EXPANDED && (ok ==> expanded == Total(entries))
    ensures ok ==> files.Keys == {"VERSION", "hserver-agent", "agent-install.sh"}
    ensures forall name :: name in files ==>
        exists k :: 0 <= k < 3 && name == Assets()[k].name && files[name] <= Assets()[k].max
  {
    hide PathAllowed, Count, Total;
    var found: set<string> := {};
    files, expanded := map[], 0;
    NothingYet(entries, root);
    for n := 0 to |entries|
      invariant forall i :: 0 <= i < n ==> EntryAllowed(root, entries[i])
      invariant 0 <= expanded <= MAX_EXPANDED && expanded == Total(entries[..n])
      invariant forall k :: 0 <= k < 3 ==>
          Count(entries[..n], AssetPath(root, k)) == if AssetPath(root, k) in found then 1 else 0
      invariant forall k :: 0 <= k < 3 ==> (AssetPath(root, k) in found <==> Assets()[k].name in files)
      invariant forall name :: name in files ==>
          exists k :: 0 <= k < 3 && name == Assets()[k].name && files[name] <= Assets()[k].max
    {
      var e := entries[n];
      Advance(entries, root, n);
      if !PathAllowed(root, e) || e.kind.OtherKind? { return false, files, expanded; }
      if !e.kind.Directory? {
        if e.size < 0 || e.size > MAX_EXPANDED - expanded { return false, files, expanded; }
        expanded := expanded + e.size;
        var k := Wanted(root, e.name);
        if k == 3 {
          if !e.delivered { return false, files, expanded; }
        } else {
          if e.name in found || e.size > Assets()[k].max { return false, files, expanded; }
          files := files[Assets()[k].name := e.size];
          NewAsset(root, k);
          if !e.delivered {
            FileNames(files);
            return false, files, expanded;
          }
          found := found + {e.name};
        }
      }
    }
    assert entries[..|entries|] == entries;
    FileNames(files);
    ok := AssetPath(root, 0) in found && AssetPath(root, 1) in found && AssetPath(root, 2) in found;
  }

  lemma NothingYet(entries: seq<Entry>, root: string)
    ensures Total(entries[..0]) == 0 && forall k :: 0 <= k < 3 ==> Count(entries[..0], AssetPath(root, k)) == 0
  {
    hide AssetPath;
  }

  lemma Advance(entries: seq<Entry>, root: string, n: nat)
    requires n < |entries|
    ensures var e := entries[n];
      && Total(entries[..n + 1]) == Total(entries[..n]) + (if e.kind.Regular? then e.size else 0)
      && ((forall i :: 0 <= i < |entries| ==> EntryAllowed(root, entries[i])) ==>
          Total(entries[..n + 1]) <= Total(entries))
      && forall k :: 0 <= k < 3 ==>
        && Count(entries[..n + 1], AssetPath(root, k)) ==
             Count(entries[..n], AssetPath(root, k)) +
                 (if e.kind.Regular? && e.name == AssetPath(root, k) then 1 else 0)
        && Count(entries[..n + 1], AssetPath(root, k)) <= Count(entries, AssetPath(root, k))
  {
    hide EntryAllowed, AssetPath, Count, Total;
    StepForward(entries, n, "");
    PrefixBounds(root, entries, n + 1, "");
    forall k | 0 <= k < 3
      ensures Count(entries[..n + 1], AssetPath(root, k)) ==
                Count(entries[..n], AssetPath(root, k)) +
                    (if entries[n].kind.Regular? && entries[n].name == AssetPath(root, k) then 1 else 0)
           && Count(entries[..n + 1], AssetPath(root, k)) <= Count(entries, AssetPath(root, k))
    {
      StepForward(entries, n, AssetPath(root, k));
      PrefixBounds(root, entries, n + 1, AssetPath(root, k));
    }
  }

  lemma NewAsset(root: string, k: nat)
    requires k < 3
    ensures forall i :: 0 <= i < 3 && i != k ==>
        AssetPath(root, i) != AssetPath(root, k) && Assets()[i].name != Assets()[k].name
  {
    forall i | 0 <= i < 3 && i != k
      ensures AssetPath(root, i) != AssetPath(root, k) && Assets()[i].name != Assets()[k].name
    {
      if AssetPath(root, i) == AssetPath(root, k) { AssetsDiffer(root, i, k); }
      assert |Assets()[0].name| == 7 && |Assets()[1].name| == 13 && |Assets()[2].name| == 16;
    }
  }

  lemma FileNames(files: map<string, int>)
    requires forall name :: name in files ==>
        exists k :: 0 <= k < 3 && name == Assets()[k].name && files[name] <= Assets()[k].max
    ensures files.Keys <= {"VERSION", "hserver-agent", "agent-install.sh"}
    ensures (forall k :: 0 <= k < 3 ==> Assets()[k].name in files) ==>
        files.Keys == {"VERSION", "hserver-agent", "agent-install.sh"}
  {
    assert Assets()[0].name == "VERSION" && Assets()[1].name == "hserver-agent" &&
        Assets()[2].name == "agent-install.sh";
  }
}
