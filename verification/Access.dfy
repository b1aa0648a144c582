/** Access decisions: NFSv4 entries in order, POSIX access lists, mode bits. */
module Access {
  import opened Acl
  import opened Decimal
  import opened Wrappers

  /** Permission bits as a set of three. */
  datatype Rights = Rights(r: bool, w: bool, x: bool) {
    function And(o: Rights): Rights { Rights(r && o.r, w && o.w, x && o.x) }
    function Or(o: Rights): Rights { Rights(r || o.r, w || o.w, x || o.x) }
    function Minus(o: Rights): Rights { Rights(r && !o.r, w && !o.w, x && !o.x) }
    predicate Covers(o: Rights) { (o.r ==> r) && (o.w ==> w) && (o.x ==> x) }
    predicate Has(b: Right) { match b case R => r case W => w case X => x }
  }

  datatype Right = R | W | X

  const NONE := Rights(false, false, false)
  const ALL := Rights(true, true, true)

  function RightsOf(perms: nat): Rights { Rights(Bit(perms, 4), Bit(perms, 2), Bit(perms, 1)) }

  datatype Ace = Ace(allow: bool, principal: string, flags: seq<string>, permissions: seq<string>)

  datatype Node = Node(directory: bool, mode: nat, uid: nat, gid: nat, acl: Option<Acl>, nfs4: Option<seq<Ace>>)

  // ---------------------------------------------------------------------------
  // NFSv4
  // ---------------------------------------------------------------------------

  predicate PrincipalMatches(ace: Ace, node: Node, uid: nat, gids: seq<nat>) {
    || ace.principal == "EVERYONE@"
    || (ace.principal == "OWNER@" && uid == node.uid)
    || (ace.principal == "GROUP@" && node.gid in gids)
    || ace.principal == "uid:" + Digits(uid)
    || exists i | 0 <= i < |gids| :: ace.principal == "gid:" + Digits(gids[i])
  }

  function PermissionOf(name: string): Rights {
    if name == "r" || name == "read" || name == "read-data" || name == "list-directory" then Rights(true, false, false)
    else if name == "w" || name == "write" || name == "write-data" || name == "append-data" || name == "add-file"
      || name == "add-subdirectory" then Rights(false, true, false)
    else if name == "x" || name == "execute" then Rights(false, false, true)
    else NONE
  }

  function AceRights(permissions: seq<string>): Rights {
    if permissions == [] then NONE
    else AceRights(permissions[..|permissions| - 1]).Or(PermissionOf(permissions[|permissions| - 1]))
  }

  /** The names that stand for a right. */
  ghost function NamesOf(b: Right): set<string> {
    match b
    case R => {"r", "read", "read-data", "list-directory"}
    case W => {"w", "write", "write-data", "append-data", "add-file", "add-subdirectory"}
    case X => {"x", "execute"}
  }

  /** An entry speaks about a right if and only if it lists one of its names. */
  lemma {:induction false} NamedRights(permissions: seq<string>, b: Right)
    ensures AceRights(permissions).Has(b) <==> exists i | 0 <= i < |permissions| :: permissions[i] in NamesOf(b)
  {
    if permissions != [] {
      var init, last := permissions[..|permissions| - 1], permissions[|permissions| - 1];
      NamedRights(init, b);
      assert forall i | 0 <= i < |init| :: init[i] == permissions[i];
      OneName(last, b);
    }
  }

  lemma OneName(name: string, b: Right)
    ensures PermissionOf(name).Has(b) <==> name in NamesOf(b)
  {
  }

  lemma Numbered(prefix: string, a: nat, b: nat)
    ensures prefix + Digits(a) == prefix + Digits(b) ==> a == b
    ensures prefix != "" ==> (prefix + Digits(a))[0] == prefix[0]
  {
    hide Digits;
    var n := |prefix|;
    assert (prefix + Digits(a))[n..] == Digits(a) && (prefix + Digits(b))[n..] == Digits(b);
    if Digits(a) == Digits(b) { DigitsInjective(a, b); }
  }

  lemma GroupPrincipal(ace: Ace, gids: seq<nat>, id: nat)
    ensures ace.principal == "gid:" + Digits(id) ==>
              ((exists i | 0 <= i < |gids| :: ace.principal == "gid:" + Digits(gids[i])) <==> id in gids)
    ensures ace.principal != "" && ace.principal[0] != 'g' ==>
              forall i | 0 <= i < |gids| :: ace.principal != "gid:" + Digits(gids[i])
  {
    hide Digits;
    forall i | 0 <= i < |gids|
      ensures "gid:" + Digits(gids[i]) == "gid:" + Digits(id) ==> gids[i] == id
      ensures ("gid:" + Digits(gids[i]))[0] == 'g'
    {
      Numbered("gid:", gids[i], id);
    }
  }

  /** Whom an entry addresses: everyone, the owner, the owning group, or one user
      or group by number. */
  lemma PrincipalsMean(ace: Ace, node: Node, uid: nat, gids: seq<nat>, id: nat)
    ensures ace.principal == "EVERYONE@" ==> PrincipalMatches(ace, node, uid, gids)
    ensures ace.principal == "OWNER@" ==> (PrincipalMatches(ace, node, uid, gids) <==> uid == node.uid)
    ensures ace.principal == "GROUP@" ==> (PrincipalMatches(ace, node, uid, gids) <==> node.gid in gids)
    ensures ace.principal == "uid:" + Digits(id) ==> (PrincipalMatches(ace, node, uid, gids) <==> uid == id)
    ensures ace.principal == "gid:" + Digits(id) ==> (PrincipalMatches(ace, node, uid, gids) <==> id in gids)
  {
    hide Digits;
    Numbered("uid:", uid, id);
    Numbered("uid:", id, uid);
    Numbered("gid:", id, id);
    GroupPrincipal(ace, gids, id);
  }

  /** Read counts four, write two and execute one. */
  lemma RightsAddUp(perms: nat)
    requires perms < 8
    ensures perms == (if RightsOf(perms).r then 4 else 0) + (if RightsOf(perms).w then 2 else 0)
                   + (if RightsOf(perms).x then 1 else 0)
  {
  }

  /** The entry speaks about this access and this right. */
  predicate Concerns(ace: Ace, node: Node, uid: nat, gids: seq<nat>, b: Right) {
    "inherit-only" !in ace.flags && PrincipalMatches(ace, node, uid, gids) && AceRights(ace.permissions).Has(b)
  }

  /** The first entry that concerns the right allows it. */
  ghost predicate FirstMatchAllows(entries: seq<Ace>, node: Node, uid: nat, gids: seq<nat>, b: Right) {
    exists i | 0 <= i < |entries| ::
      && Concerns(entries[i], node, uid, gids, b) && entries[i].allow
      && forall j | 0 <= j < i :: !Concerns(entries[j], node, uid, gids, b)
  }

  ghost predicate NotConcerned(entries: seq<Ace>, node: Node, uid: nat, gids: seq<nat>, b: Right) {
    forall i | 0 <= i < |entries| :: !Concerns(entries[i], node, uid, gids, b)
  }

  /** The one-pass loop decides as right by right first match (section 6.2.1 of
      RFC 7530); an empty list decides nothing. */
  method EvaluateNfs4(entries: seq<Ace>, node: Node, uid: nat, gids: seq<nat>,
                      requested: Rights) returns (r: Option<bool>)
    requires requested != NONE
    ensures r.None? <==> entries == []
    ensures r.Some? ==>
              (r.value <==> forall b: Right | requested.Has(b) :: FirstMatchAllows(entries, node, uid, gids, b))
  {
    hide PrincipalMatches, AceRights, FirstMatchAllows, NotConcerned;
    if entries == [] { return None; }
    var remaining := requested;
    assert forall b: Right :: requested.Has(b) ==> remaining.Has(b);
    forall b: Right ensures NotConcerned(entries[..0], node, uid, gids, b) { NoneConcerned(node, uid, gids, b); }
    for n := 0 to |entries|
      invariant remaining != NONE && forall b: Right | remaining.Has(b) :: requested.Has(b)
      invariant forall b: Right | remaining.Has(b) :: NotConcerned(entries[..n], node, uid, gids, b)
      invariant forall b: Right | requested.Has(b) && !remaining.Has(b) :: FirstMatchAllows(entries, node, uid, gids, b)
    {
      var ace := entries[n];
      assert entries[..n + 1] == entries[..n] + [ace];
      forall b: Right | NotConcerned(entries[..n], node, uid, gids, b) && !Concerns(ace, node, uid, gids, b)
        ensures NotConcerned(entries[..n + 1], node, uid, gids, b)
      {
        ConcernedSnoc(entries[..n], ace, node, uid, gids, b);
      }
      if "inherit-only" in ace.flags || !PrincipalMatches(ace, node, uid, gids) { continue; }
      var affected := AceRights(ace.permissions).And(remaining);
      forall b: Right ensures affected.Has(b) <==> Concerns(ace, node, uid, gids, b) && remaining.Has(b) { }
      if affected == NONE { continue; }
      var first := SomeRight(affected);
      if !ace.allow {
        DeniedFirst(entries, node, uid, gids, first, n);
        return Some(false);
      }
      forall b: Right | affected.Has(b) ensures FirstMatchAllows(entries, node, uid, gids, b) {
        AllowedFirst(entries, node, uid, gids, b, n);
      }
      ghost var before := remaining;
      remaining := remaining.Minus(affected);
      forall b: Right ensures remaining.Has(b) <==> before.Has(b) && !affected.Has(b) { }
      if remaining == NONE { return Some(true); }
    }
    assert entries[..|entries|] == entries;
    var left := SomeRight(remaining);
    NeverConcerned(entries, node, uid, gids, left);
    r := Some(false);
  }

  function SomeRight(rights: Rights): (b: Right)
    requires rights != NONE
    ensures rights.Has(b)
  {
    if rights.r then R else if rights.w then W else X
  }

  lemma NoneConcerned(node: Node, uid: nat, gids: seq<nat>, b: Right)
    ensures NotConcerned([], node, uid, gids, b)
  {
  }

  lemma ConcernedSnoc(entries: seq<Ace>, ace: Ace, node: Node, uid: nat, gids: seq<nat>, b: Right)
    requires NotConcerned(entries, node, uid, gids, b) && !Concerns(ace, node, uid, gids, b)
    ensures NotConcerned(entries + [ace], node, uid, gids, b)
  {
  }

  lemma NeverConcerned(entries: seq<Ace>, node: Node, uid: nat, gids: seq<nat>, b: Right)
    requires NotConcerned(entries, node, uid, gids, b)
    ensures !FirstMatchAllows(entries, node, uid, gids, b)
  {
  }

  lemma AllowedFirst(entries: seq<Ace>, node: Node, uid: nat, gids: seq<nat>, b: Right, n: nat)
    requires n < |entries| && Concerns(entries[n], node, uid, gids, b) && entries[n].allow
    requires NotConcerned(entries[..n], node, uid, gids, b)
    ensures FirstMatchAllows(entries, node, uid, gids, b)
  {
    assert forall j | 0 <= j < n :: entries[..n][j] == entries[j];
  }

  lemma DeniedFirst(entries: seq<Ace>, node: Node, uid: nat, gids: seq<nat>, b: Right, n: nat)
    requires n < |entries| && Concerns(entries[n], node, uid, gids, b) && !entries[n].allow
    requires NotConcerned(entries[..n], node, uid, gids, b)
    ensures !FirstMatchAllows(entries, node, uid, gids, b)
  {
    assert forall j | 0 <= j < n :: entries[..n][j] == entries[j];
  }

  // ---------------------------------------------------------------------------
  // POSIX access lists and mode bits
  // ---------------------------------------------------------------------------

  ghost predicate ModeAllows(node: Node, uid: nat, gids: seq<nat>, requested: Rights) {
    var perms := if uid == node.uid then node.mode / 64 % 8 else if node.gid in gids then node.mode / 8 % 8
                 else node.mode % 8;
    RightsOf(perms).Covers(requested)
  }

  function TagRights(acl: Acl, tag: Tag, default: nat): Rights { RightsOf(OrElse(FindPerms(acl, tag), default)) }

  function MaskRights(acl: Acl): Rights { TagRights(acl, Mask, 7) }

  predicate NamesUser(e: Entry, uid: nat) { e.tag == User && e.id == Some(uid) }

  predicate NamesGroup(e: Entry, gids: seq<nat>) { e.tag == Group && e.id.Some? && e.id.value in gids }

  /** The first entry naming the user. */
  function NamedUser(acl: Acl, uid: nat): (r: Option<Entry>)
    ensures r.Some? <==> exists i | 0 <= i < |acl| :: NamesUser(acl[i], uid)
    ensures r.Some? ==> r.value in acl && NamesUser(r.value, uid)
  {
    if acl == [] then None
    else if NamesUser(acl[0], uid) then Some(acl[0])
    else
      assert forall i | 0 < i < |acl| :: acl[i] == acl[1..][i - 1];
      NamedUser(acl[1..], uid)
  }

  /** The owning group or some named group of the caller is granted the right. */
  ghost predicate SomeGroupGrants(acl: Acl, node: Node, gids: seq<nat>, b: Right) {
    || (node.gid in gids && TagRights(acl, GroupObj, node.mode / 8 % 8).Has(b))
    || exists i | 0 <= i < |acl| :: NamesGroup(acl[i], gids) && RightsOf(acl[i].perms).Has(b)
  }

  ghost predicate SomeGroupMatches(acl: Acl, node: Node, gids: seq<nat>) {
    node.gid in gids || exists i | 0 <= i < |acl| :: NamesGroup(acl[i], gids)
  }

  /** Owner, named user, any matching group right by right, then others; the mask
      limits named users and groups. */
  ghost predicate PosixAllows(acl: Acl, node: Node, uid: nat, gids: seq<nat>, requested: Rights) {
    if uid == node.uid then TagRights(acl, UserObj, node.mode / 64 % 8).Covers(requested)
    else if NamedUser(acl, uid).Some? then
      RightsOf(NamedUser(acl, uid).value.perms).And(MaskRights(acl)).Covers(requested)
    else if SomeGroupMatches(acl, node, gids) then
      forall b: Right | requested.Has(b) :: MaskRights(acl).Has(b) && SomeGroupGrants(acl, node, gids, b)
    else TagRights(acl, Other, node.mode % 8).Covers(requested)
  }

  method EvaluatePosix(acl: Acl, node: Node, uid: nat, gids: seq<nat>, requested: Rights) returns (allowed: bool)
    ensures allowed <==> PosixAllows(acl, node, uid, gids, requested)
  {
    hide RightsOf, FindPerms;
    var mask := MaskRights(acl);
    if uid == node.uid { return TagRights(acl, UserObj, node.mode / 64 % 8).Covers(requested); }
    var named := NamedUser(acl, uid);
    if named.Some? { return RightsOf(named.value.perms).And(mask).Covers(requested); }
    var matched, rights := false, NONE;
    if node.gid in gids { matched, rights := true, TagRights(acl, GroupObj, node.mode / 8 % 8); }
    for n := 0 to |acl|
      invariant matched <==> node.gid in gids || exists i | 0 <= i < n :: NamesGroup(acl[i], gids)
      invariant forall b: Right :: rights.Has(b) <==>
                  (node.gid in gids && TagRights(acl, GroupObj, node.mode / 8 % 8).Has(b))
                  || exists i | 0 <= i < n :: NamesGroup(acl[i], gids) && RightsOf(acl[i].perms).Has(b)
    {
      if NamesGroup(acl[n], gids) {
        ghost var before := rights;
        matched, rights := true, rights.Or(RightsOf(acl[n].perms));
        assert forall b: Right :: rights.Has(b) <==> before.Has(b) || RightsOf(acl[n].perms).Has(b);
      }
    }
    if matched {
      CoversByRight(rights.And(mask), requested);
      assert forall b: Right :: rights.And(mask).Has(b) <==> rights.Has(b) && mask.Has(b);
      return rights.And(mask).Covers(requested);
    }
    allowed := TagRights(acl, Other, node.mode % 8).Covers(requested);
  }

  lemma CoversByRight(a: Rights, b: Rights)
    ensures a.Covers(b) <==> forall right: Right | b.Has(right) :: a.Has(right)
  {
    assert b.r ==> b.Has(R);
    assert b.w ==> b.Has(W);
    assert b.x ==> b.Has(X);
    if forall right: Right | b.Has(right) :: a.Has(right) {
      assert b.Has(R) ==> a.Has(R);
      assert b.Has(W) ==> a.Has(W);
      assert b.Has(X) ==> a.Has(X);
    }
  }

  lemma {:induction false} TagsAddUp(acl: Acl)
    ensures CountTag(acl, UserObj) + CountTag(acl, User) + CountTag(acl, GroupObj) + CountTag(acl, Group)
          + CountTag(acl, Mask) + CountTag(acl, Other) == |acl|
  {
    if acl != [] { TagsAddUp(acl[..|acl| - 1]); }
  }

  /** A valid list of three entries has no named entry and no mask. */
  lemma MinimalHasNoMore(acl: Acl)
    requires IsValid(acl) && |acl| == 3
    ensures !HasTag(acl, Mask) && !HasTag(acl, User) && !HasTag(acl, Group)
    ensures HasTag(acl, UserObj) && HasTag(acl, GroupObj) && HasTag(acl, Other)
  {
    hide HasTag, CountTag;
    TagsAddUp(acl);
    CountedTag(acl, Mask);
    CountedTag(acl, User);
    CountedTag(acl, Group);
    CountedTag(acl, UserObj);
    CountedTag(acl, GroupObj);
    CountedTag(acl, Other);
  }

  /** A three-entry list carrying a file's mode decides every access as the mode does. */
  lemma MinimalDecidesAsMode(acl: Acl, node: Node, uid: nat, gids: seq<nat>, requested: Rights)
    requires IsValid(acl) && |acl| == 3
    ensures PosixAllows(ApplyMode(acl, node.mode), node, uid, gids, requested) <==>
            ModeAllows(node, uid, gids, requested)
  {
    hide IsValid, FindPerms, RightsOf;
    MinimalHasNoMore(acl);
    var list := ApplyMode(acl, node.mode);
    AppliedPerms(acl, node.mode);
    ApplyKeepsTags(acl, node.mode, Mask);
    ApplyKeepsTags(acl, node.mode, User);
    ApplyKeepsTags(acl, node.mode, Group);
    assert MaskRights(list) == ALL by { assert FindPerms(list, Mask).None?; FullMask(); }
    var group := TagRights(list, GroupObj, node.mode / 8 % 8);
    CoversByRight(group, requested);
    forall b: Right ensures ALL.Has(b) { }
    forall i | 0 <= i < |list| ensures !NamesUser(list[i], uid) && !NamesGroup(list[i], gids) { }
  }

  lemma FullMask()
    ensures RightsOf(7) == ALL
  {
  }

  /** The whole decision: nothing asked is allowed; root may do anything but
      execute a file nobody may execute; then NFSv4, POSIX list, mode bits. */
  ghost predicate Allows(node: Node, uid: nat, gids: seq<nat>, requested: Rights) {
    if requested == NONE then true
    else if uid == 0 then !requested.x || node.directory || Bit(node.mode, 64) || Bit(node.mode, 8) || Bit(node.mode, 1)
    else if node.nfs4.Some? && node.nfs4.value != [] then
      forall b: Right | requested.Has(b) :: FirstMatchAllows(node.nfs4.value, node, uid, gids, b)
    else if node.acl.Some? then PosixAllows(node.acl.value, node, uid, gids, requested)
    else ModeAllows(node, uid, gids, requested)
  }

  method EvaluateAccess(node: Node, uid: nat, gids: seq<nat>, requested: Rights) returns (allowed: bool)
    ensures allowed <==> Allows(node, uid, gids, requested)
  {
    hide FirstMatchAllows, PosixAllows, RightsOf;
    if requested == NONE { return true; }
    if uid == 0 {
      return !requested.x || node.directory || Bit(node.mode, 64) || Bit(node.mode, 8) || Bit(node.mode, 1);
    }
    if node.nfs4.Some? {
      var decision := EvaluateNfs4(node.nfs4.value, node, uid, gids, requested);
      if decision.Some? { return decision.value; }
    }
    if node.acl.Some? {
      allowed := EvaluatePosix(node.acl.value, node, uid, gids, requested);
      return;
    }
    var perms := if uid == node.uid then node.mode / 64 % 8 else if node.gid in gids then node.mode / 8 % 8
                 else node.mode % 8;
    allowed := RightsOf(perms).Covers(requested);
  }
}
