/** The duplicate-key walk over a JSON token stream (section 4 of RFC 8259). */
module JsonWalk {
  import opened Text

  datatype Token = OpenObject | CloseObject | OpenArray | CloseArray | Str(s: string) | Plain(text: string)

  // ---- the walk -----------------------------------------------------------

  /** What is left after one value; `None` is any error of the walk or of the decoder. */
  function WalkValue(ts: seq<Token>): (r: Option<seq<Token>>)
    ensures r.Some? ==> |r.value| < |ts|
    decreases |ts|, 0
  {
    if ts == [] then None
    else
      match ts[0]
      case OpenObject => WalkMembers(ts[1..], {})
      case OpenArray => WalkItems(ts[1..])
      case CloseObject => None
      case CloseArray => None
      case _ => Some(ts[1..])
  }

  function WalkMembers(ts: seq<Token>, seen: set<string>): (r: Option<seq<Token>>)
    ensures r.Some? ==> |r.value| < |ts|
    decreases |ts|, 1
  {
    if !More(ts) then EndWith(ts, CloseObject)
    else if !ts[0].Str? || ts[0].s in seen then None
    else
      match WalkValue(ts[1..])
      case None => None
      case Some(rest) => WalkMembers(rest, seen + {ts[0].s})
  }

  function WalkItems(ts: seq<Token>): (r: Option<seq<Token>>)
    ensures r.Some? ==> |r.value| < |ts|
    decreases |ts|, 1
  {
    if !More(ts) then EndWith(ts, CloseArray)
    else
      match WalkValue(ts)
      case None => None
      case Some(rest) => WalkItems(rest)
  }

  /** `decoder.More`. */
  predicate More(ts: seq<Token>) { ts != [] && ts[0] != CloseObject && ts[0] != CloseArray }

  function EndWith(ts: seq<Token>, close: Token): (r: Option<seq<Token>>)
    ensures r.Some? ==> |r.value| < |ts|
  {
    if ts != [] && ts[0] == close then Some(ts[1..]) else None
  }

  /** `walkJSONValue`: the decoder's remaining tokens are the variable that advances. */
  method Walk(ts: seq<Token>) returns (r: Option<seq<Token>>)
    ensures r == WalkValue(ts)
    decreases |ts|
  {
    if ts == [] { return None; }
    var rest := ts[1..];
    match ts[0] {
      case OpenObject =>
        var seen: set<string> := {};
        while More(rest)
          invariant |rest| < |ts|
          invariant WalkMembers(ts[1..], {}) == WalkMembers(rest, seen)
          decreases |rest|
        {
          var key := rest[0];
          if !key.Str? { return None; }
          if key.s in seen { return None; }
          seen := seen + {key.s};
          var value := Walk(rest[1..]);
          if value.None? { return None; }
          rest := value.value;
        }
        return EndWith(rest, CloseObject);
      case OpenArray =>
        while More(rest)
          invariant |rest| < |ts|
          invariant WalkItems(ts[1..]) == WalkItems(rest)
          decreases |rest|
        {
          var value := Walk(rest);
          if value.None? { return None; }
          rest := value.value;
        }
        return EndWith(rest, CloseArray);
      case CloseObject => return None;
      case CloseArray => return None;
      case Str(_) => return Some(rest);
      case Plain(_) => return Some(rest);
    }
  }

  /** `rejectDuplicateJSONKeys`: one value and nothing after it. */
  predicate Accepts(ts: seq<Token>) { WalkValue(ts) == Some([]) }

  // ---- trees --------------------------------------------------------------

  datatype Json = Leaf(token: Token) | Array(items: Items) | Object(members: Members)
  datatype Items = NoItems | Item(head: Json, tail: Items)
  datatype Members = NoMembers | Member(name: string, value: Json, rest: Members)

  /** Leaves are strings, numbers, booleans and null. */
  predicate WellFormed(j: Json) {
    match j
    case Leaf(token) => token.Str? || token.Plain?
    case Array(items) => ItemsWellFormed(items)
    case Object(members) => MembersWellFormed(members)
  }

  predicate ItemsWellFormed(items: Items) {
    match items
    case NoItems => true
    case Item(head, tail) => WellFormed(head) && ItemsWellFormed(tail)
  }

  predicate MembersWellFormed(members: Members) {
    match members
    case NoMembers => true
    case Member(_, value, rest) => WellFormed(value) && MembersWellFormed(rest)
  }

  function Tokens(j: Json): (ts: seq<Token>)
    ensures |ts| > 0
  {
    match j
    case Leaf(token) => [token]
    case Array(items) => [OpenArray] + ItemTokens(items)
    case Object(members) => [OpenObject] + MemberTokens(members)
  }

  function ItemTokens(items: Items): seq<Token> {
    match items
    case NoItems => [CloseArray]
    case Item(head, tail) => Tokens(head) + ItemTokens(tail)
  }

  function MemberTokens(members: Members): seq<Token> {
    match members
    case NoMembers => [CloseObject]
    case Member(name, value, rest) => [Str(name)] + Tokens(value) + MemberTokens(rest)
  }

  function Names(members: Members): seq<string> {
    match members
    case NoMembers => []
    case Member(name, _, rest) => [name] + Names(rest)
  }

  /** No object at any depth repeats a name. */
  predicate DuplicateFree(j: Json) {
    match j
    case Leaf(_) => true
    case Array(items) => ItemsDuplicateFree(items)
    case Object(members) => Distinct(Names(members)) && MembersDuplicateFree(members)
  }

  predicate ItemsDuplicateFree(items: Items) {
    match items
    case NoItems => true
    case Item(head, tail) => DuplicateFree(head) && ItemsDuplicateFree(tail)
  }

  /** The values of the members, not their names. */
  predicate MembersDuplicateFree(members: Members) {
    match members
    case NoMembers => true
    case Member(_, value, rest) => DuplicateFree(value) && MembersDuplicateFree(rest)
  }

  // ---- the walk decides duplicate-freedom ---------------------------------

  predicate Unseen(names: seq<string>, seen: set<string>) {
    Distinct(names) && forall i :: 0 <= i < |names| ==> names[i] !in seen
  }

  lemma UnseenStep(name: string, names: seq<string>, seen: set<string>)
    ensures Unseen([name] + names, seen) <==> name !in seen && Unseen(names, seen + {name})
  {
    var all := [name] + names;
    if Unseen(all, seen) {
      assert forall i :: 0 <= i < |names| ==> names[i] == all[i + 1];
      assert all[0] == name;
    }
    if name !in seen && Unseen(names, seen + {name}) {
      forall i, j | 0 <= i < j < |all| ensures all[i] != all[j] {
        assert all[j] == names[j - 1];
      }
    }
  }

  lemma {:induction false} FirstOfValue(j: Json)
    requires WellFormed(j)
    ensures More(Tokens(j))
  {}

  /** On the tokens of a tree the walk consumes exactly them, and succeeds exactly when the tree is duplicate-free. */
  lemma {:induction false} WalkTree(j: Json, rest: seq<Token>)
    requires WellFormed(j)
    ensures WalkValue(Tokens(j) + rest) == if DuplicateFree(j) then Some(rest) else None
    decreases j
  {
    match j {
      case Leaf(token) => assert ([token] + rest)[1..] == rest;
      case Array(items) =>
        var ts := Tokens(j) + rest;
        assert ts[1..] == ItemTokens(items) + rest;
        WalkTreeItems(items, rest);
      case Object(members) =>
        var ts := Tokens(j) + rest;
        assert ts[1..] == MemberTokens(members) + rest;
        WalkTreeMembers(members, {}, rest);
    }
  }

  lemma {:induction false} WalkTreeItems(items: Items, rest: seq<Token>)
    requires ItemsWellFormed(items)
    ensures WalkItems(ItemTokens(items) + rest) == if ItemsDuplicateFree(items) then Some(rest) else None
    decreases items
  {
    match items {
      case NoItems => assert ([CloseArray] + rest)[1..] == rest;
      case Item(head, tail) =>
        var more := ItemTokens(tail) + rest;
        assert ItemTokens(items) + rest == Tokens(head) + more;
        FirstOfValue(head);
        assert More(Tokens(head) + more);
        WalkTree(head, more);
        WalkTreeItems(tail, rest);
    }
  }

  lemma {:induction false} WalkTreeMembers(members: Members, seen: set<string>, rest: seq<Token>)
    requires MembersWellFormed(members)
    ensures WalkMembers(MemberTokens(members) + rest, seen) ==
      if Unseen(Names(members), seen) && MembersDuplicateFree(members) then Some(rest) else None
    decreases members
  {
    match members {
      case NoMembers => assert ([CloseObject] + rest)[1..] == rest;
      case Member(name, value, others) =>
        var more := MemberTokens(others) + rest;
        var ts := MemberTokens(members) + rest;
        assert ts == [Str(name)] + (Tokens(value) + more);
        assert ts[1..] == Tokens(value) + more;
        WalkTree(value, more);
        WalkTreeMembers(others, seen + {name}, rest);
        hide Unseen, WalkValue;
        UnseenStep(name, Names(others), seen);
    }
  }

  /** Whatever the walk gets past was the tokens of a duplicate-free tree. */
  lemma {:induction false} Rebuild(ts: seq<Token>) returns (j: Json)
    requires WalkValue(ts).Some?
    ensures WellFormed(j) && DuplicateFree(j) && ts == Tokens(j) + WalkValue(ts).value
    decreases |ts|, 0
  {
    match ts[0] {
      case OpenObject =>
        var members := RebuildMembers(ts[1..], {});
        j := Object(members);
        assert ts == [OpenObject] + ts[1..];
      case OpenArray =>
        var items := RebuildItems(ts[1..]);
        j := Array(items);
        assert ts == [OpenArray] + ts[1..];
      case Str(_) =>
        j := Leaf(ts[0]);
        assert ts == [ts[0]] + ts[1..];
      case Plain(_) =>
        j := Leaf(ts[0]);
        assert ts == [ts[0]] + ts[1..];
    }
  }

  lemma {:induction false} RebuildItems(ts: seq<Token>) returns (items: Items)
    requires WalkItems(ts).Some?
    ensures ItemsWellFormed(items) && ItemsDuplicateFree(items) && ts == ItemTokens(items) + WalkItems(ts).value
    decreases |ts|, 1
  {
    if !More(ts) {
      items := NoItems;
      assert ts == [CloseArray] + ts[1..];
    } else {
      var head := Rebuild(ts);
      var rest := WalkValue(ts).value;
      var tail := RebuildItems(rest);
      items := Item(head, tail);
      assert ts == Tokens(head) + ItemTokens(tail) + WalkItems(rest).value;
    }
  }

  lemma {:induction false} RebuildMembers(ts: seq<Token>, seen: set<string>) returns (members: Members)
    requires WalkMembers(ts, seen).Some?
    ensures MembersWellFormed(members) && MembersDuplicateFree(members) && Unseen(Names(members), seen)
    ensures ts == MemberTokens(members) + WalkMembers(ts, seen).value
    decreases |ts|, 1
  {
    if !More(ts) {
      members := NoMembers;
      assert ts == [CloseObject] + ts[1..];
    } else {
      var name := ts[0].s;
      var value := Rebuild(ts[1..]);
      var rest := WalkValue(ts[1..]).value;
      var others := RebuildMembers(rest, seen + {name});
      members := Member(name, value, others);
      UnseenStep(name, Names(others), seen);
      assert ts == [Str(name)] + ts[1..];
      assert ts == [Str(name)] + Tokens(value) + MemberTokens(others) + WalkMembers(rest, seen + {name}).value;
    }
  }

  /** `rejectDuplicateJSONKeys` accepts a token stream exactly when it is that of one single, duplicate-free value. */
  lemma AcceptsIff(ts: seq<Token>)
    ensures Accepts(ts) <==> exists j: Json :: WellFormed(j) && DuplicateFree(j) && ts == Tokens(j)
  {
    if Accepts(ts) {
      var j := Rebuild(ts);
      assert ts == Tokens(j) + [] == Tokens(j);
    }
    forall j: Json | WellFormed(j) && DuplicateFree(j) && ts == Tokens(j) ensures Accepts(ts) {
      WalkTree(j, []);
      assert Tokens(j) + [] == Tokens(j);
    }
  }
}
