/** POSIX access control lists: validity, the text and binary forms, and their
    relation to mode bits. */
module Acl {
  import opened Arithmetic
  import opened Blocks
  import opened Decimal
  import opened Json
  import opened Wrappers

  const U32_MAX: nat := 0xFFFF_FFFF

  datatype Tag = UserObj | User | GroupObj | Group | Mask | Other
  datatype Entry = Entry(tag: Tag, id: Option<nat>, perms: nat)
  type Acl = seq<Entry>

  predicate Named(tag: Tag) { tag == User || tag == Group }

  predicate ValidId(tag: Tag, id: Option<nat>) { Named(tag) <==> id.Some? }

  // ---------------------------------------------------------------------------
  // Validity
  // ---------------------------------------------------------------------------

  function CountTag(acl: Acl, tag: Tag): nat {
    if acl == [] then 0 else CountTag(acl[..|acl| - 1], tag) + if acl[|acl| - 1].tag == tag then 1 else 0
  }

  predicate GoodEntry(e: Entry) { e.perms < 8 && ValidId(e.tag, e.id) }

  /** No two named entries of one kind share an id. */
  ghost predicate DistinctNames(acl: Acl) {
    forall i, j | 0 <= i < j < |acl| && Named(acl[i].tag) && acl[i].tag == acl[j].tag :: acl[i].id != acl[j].id
  }

  ghost predicate HasNamed(acl: Acl) { exists i | 0 <= i < |acl| :: Named(acl[i].tag) }

  ghost predicate IsValid(acl: Acl) {
    && (forall i | 0 <= i < |acl| :: GoodEntry(acl[i])) && DistinctNames(acl)
    && CountTag(acl, UserObj) == 1 && CountTag(acl, GroupObj) == 1 && CountTag(acl, Other) == 1
    && CountTag(acl, Mask) <= 1 && (HasNamed(acl) ==> CountTag(acl, Mask) == 1)
  }

  ghost function Ids(acl: Acl, tag: Tag): set<nat> {
    set i | 0 <= i < |acl| && acl[i].tag == tag && acl[i].id.Some? :: acl[i].id.value
  }

  lemma IdsSnoc(acl: Acl, e: Entry, tag: Tag)
    ensures Ids(acl + [e], tag) == Ids(acl, tag) + if e.tag == tag && e.id.Some? then {e.id.value} else {}
  {
    var all := acl + [e];
    assert all[|acl|] == e;
    forall x | x in Ids(acl, tag) ensures x in Ids(all, tag) {
      var i :| 0 <= i < |acl| && acl[i].tag == tag && acl[i].id == Some(x);
      assert all[i] == acl[i];
    }
    forall x | x in Ids(all, tag) ensures x in Ids(acl, tag) || (e.tag == tag && e.id == Some(x)) {
      var i :| 0 <= i < |all| && all[i].tag == tag && all[i].id == Some(x);
      assert i < |acl| ==> acl[i] == all[i];
    }
    if e.tag == tag && e.id.Some? { assert all[|acl|].id.value in Ids(all, tag); }
  }

  lemma NamesSnoc(acl: Acl, e: Entry)
    requires forall i | 0 <= i < |acl| :: GoodEntry(acl[i])
    requires GoodEntry(e)
    ensures DistinctNames(acl + [e]) <==> DistinctNames(acl) && (Named(e.tag) ==> e.id.value !in Ids(acl, e.tag))
    ensures HasNamed(acl + [e]) <==> HasNamed(acl) || Named(e.tag)
  {
    var all := acl + [e];
    assert all[|acl|] == e;
    assert forall i | 0 <= i < |acl| :: all[i] == acl[i];
    if DistinctNames(acl) && (Named(e.tag) ==> e.id.value !in Ids(acl, e.tag)) {
      forall i, j | 0 <= i < j < |all| && Named(all[i].tag) && all[i].tag == all[j].tag ensures all[i].id != all[j].id {
        if j == |acl| { assert acl[i].id.Some?; }
      }
    }
  }

  lemma CountSnoc(acl: Acl, e: Entry, tag: Tag)
    ensures CountTag(acl + [e], tag) == CountTag(acl, tag) + if e.tag == tag then 1 else 0
  {
    assert (acl + [e])[..|acl|] == acl;
  }

  method Validate(acl: Acl) returns (ok: bool)
    ensures ok <==> IsValid(acl)
  {
    hide DistinctNames, HasNamed, Ids, CountTag;
    var userObj, groupObj, mask, other := 0, 0, 0, 0;
    var users: set<nat>, groups: set<nat> := {}, {};
    Nothing();
    for n := 0 to |acl|
      invariant forall i | 0 <= i < n :: GoodEntry(acl[i])
      invariant DistinctNames(acl[..n]) && users == Ids(acl[..n], User) && groups == Ids(acl[..n], Group)
      invariant (users != {} || groups != {}) <==> HasNamed(acl[..n])
      invariant userObj == CountTag(acl[..n], UserObj) && groupObj == CountTag(acl[..n], GroupObj)
      invariant mask == CountTag(acl[..n], Mask) && other == CountTag(acl[..n], Other)
    {
      var e := acl[n];
      assert acl[..n + 1] == acl[..n] + [e];
      if e.perms >= 8 || !ValidId(e.tag, e.id) { return false; }
      NamesSnoc(acl[..n], e);
      IdsSnoc(acl[..n], e, User);
      IdsSnoc(acl[..n], e, Group);
      forall tag ensures CountTag(acl[..n + 1], tag) == CountTag(acl[..n], tag) + if e.tag == tag then 1 else 0 {
        CountSnoc(acl[..n], e, tag);
      }
      match e.tag {
        case UserObj => userObj := userObj + 1;
        case GroupObj => groupObj := groupObj + 1;
        case Mask => mask := mask + 1;
        case Other => other := other + 1;
        case User =>
          if e.id.value in users {
            NamesPrefix(acl, n + 1);
            return false;
          }
          users := users + {e.id.value};
        case Group =>
          if e.id.value in groups {
            NamesPrefix(acl, n + 1);
            return false;
          }
          groups := groups + {e.id.value};
      }
    }
    assert acl[..|acl|] == acl;
    ok := userObj == 1 && groupObj == 1 && other == 1 && mask <= 1 && ((users == {} && groups == {}) || mask == 1);
  }

  lemma Nothing()
    ensures DistinctNames([]) && !HasNamed([]) && (forall tag :: CountTag([], tag) == 0 && Ids([], tag) == {})
  {
  }

  lemma NamesPrefix(acl: Acl, n: nat)
    requires n <= |acl| && !DistinctNames(acl[..n])
    ensures !DistinctNames(acl)
  {
    var i, j :| 0 <= i < j < n && Named(acl[..n][i].tag) && acl[..n][i].tag == acl[..n][j].tag
                && acl[..n][i].id == acl[..n][j].id;
    assert acl[i].id == acl[j].id;
  }

  // ---------------------------------------------------------------------------
  // Binary form
  // ---------------------------------------------------------------------------

  function TagCode(tag: Tag): nat {
    match tag
    case UserObj => 0x01
    case User => 0x02
    case GroupObj => 0x04
    case Group => 0x08
    case Mask => 0x10
    case Other => 0x20
  }

  function TagOf(code: nat): Option<Tag> {
    if code == 0x01 then Some(UserObj)
    else if code == 0x02 then Some(User)
    else if code == 0x04 then Some(GroupObj)
    else if code == 0x08 then Some(Group)
    else if code == 0x10 then Some(Mask)
    else if code == 0x20 then Some(Other)
    else None
  }

  function Le16(n: nat): (b: Bytes)
    requires n < 0x1_0000
    ensures |b| == 2
  {
    [(n % 256) as Byte, (n / 256) as Byte]
  }

  function FromLe16(b: Bytes): nat
    requires |b| == 2
  {
    b[0] as nat + 256 * b[1] as nat
  }

  function Le32(n: nat): (b: Bytes)
    requires n <= U32_MAX
    ensures |b| == 4
  {
    Le16(n % 0x1_0000) + Le16(n / 0x1_0000)
  }

  function FromLe32(b: Bytes): nat
    requires |b| == 4
  {
    FromLe16(b[..2]) + 0x1_0000 * FromLe16(b[2..])
  }

  lemma Le32RoundTrip(n: nat)
    requires n <= U32_MAX
    ensures FromLe32(Le32(n)) == n
  {
    var low, high := Le16(n % 0x1_0000), Le16(n / 0x1_0000);
    assert (low + high)[..2] == low && (low + high)[2..] == high;
  }

  function EntryBytes(e: Entry): (b: Bytes)
    requires e.perms < 0x1_0000 && (e.id.Some? ==> e.id.value <= U32_MAX)
    ensures |b| == 8
  {
    Le16(TagCode(e.tag)) + Le16(e.perms) + Le32(if e.id.Some? then e.id.value else U32_MAX)
  }

  /** An entry on disk: the bit of its tag, its permissions and its id, each with
      the low byte first. */
  lemma EntryLayout(e: Entry)
    requires e.perms < 8 && (e.id.Some? ==> e.id.value <= U32_MAX)
    ensures var b, id := EntryBytes(e), if e.id.Some? then e.id.value else 0xFFFF_FFFF;
            && b[0] as nat == (match e.tag case UserObj => 1 case User => 2 case GroupObj => 4 case Group => 8
                               case Mask => 16 case Other => 32)
            && b[1] == 0 && b[2] as nat == e.perms && b[3] == 0
            && b[4] as nat + 256 * b[5] as nat + 65536 * b[6] as nat + 16777216 * b[7] as nat == id
  {
    var id := if e.id.Some? then e.id.value else U32_MAX;
    Le32RoundTrip(id);
    var b := EntryBytes(e);
    assert b[4..8] == Le32(id);
  }

  /** Permissions are 16 bits and ids 32 bits wide. */
  ghost predicate Representable(acl: Acl) {
    forall i | 0 <= i < |acl| :: acl[i].perms < 0x1_0000 && (acl[i].id.Some? ==> acl[i].id.value <= U32_MAX)
  }

  function EntriesBytes(acl: Acl): (b: Bytes)
    requires Representable(acl)
    ensures |b| == 8 * |acl|
  {
    if acl == [] then [] else EntriesBytes(acl[..|acl| - 1]) + EntryBytes(acl[|acl| - 1])
  }

  const VERSION: Bytes := [2, 0, 0, 0]

  function ToBinary(acl: Acl): Bytes
    requires Representable(acl)
  {
    VERSION + EntriesBytes(acl)
  }

  function EntryOf(b: Bytes): Option<Entry>
    requires |b| == 8
  {
    var code, perms, id := FromLe16(b[..2]), FromLe16(b[2..4]), FromLe32(b[4..]);
    if perms >= 8 then None
    else match TagOf(code)
      case None => None
      case Some(tag) =>
        var owner := if id == U32_MAX then None else Some(id);
        if ValidId(tag, owner) then Some(Entry(tag, owner, perms)) else None
  }

  function EntriesOf(b: Bytes): Option<Acl>
    requires |b| % 8 == 0
    decreases |b|
  {
    if b == [] then Some([])
    else match EntriesOf(b[..|b| - 8])
      case None => None
      case Some(init) =>
        match EntryOf(b[|b| - 8..])
        case None => None
        case Some(e) => Some(init + [e])
  }

  /** The list a binary value stands for; none when it is malformed or not valid. */
  ghost function FromBinary(value: Bytes): Option<Acl> {
    if |value| < 4 || (|value| - 4) % 8 != 0 then None
    else match EntriesOf(value[4..])
      case None => None
      case Some(acl) => if IsValid(acl) then Some(acl) else None
  }

  method ParseBinary(value: Bytes) returns (r: Option<Acl>)
    ensures r == FromBinary(value)
  {
    hide IsValid, EntriesOf, EntryOf;
    if |value| < 4 || (|value| - 4) % 8 != 0 { return None; }
    var body := value[4..];
    var entries: Acl := [];
    NoEntries();
    for i := 0 to |body| / 8
      invariant EntriesOf(body[..8 * i]) == Some(entries)
    {
      EntriesNext(body, i);
      var e := EntryOf(body[8 * i..8 * i + 8]);
      if e.None? {
        BadChunk(body, 8 * (i + 1));
        return None;
      }
      entries := entries + [e.value];
    }
    assert body[..8 * (|body| / 8)] == body;
    var ok := Validate(entries);
    r := if ok then Some(entries) else None;
  }

  lemma NoEntries()
    ensures EntriesOf([]) == Some([])
  {
  }

  lemma EntriesNext(b: Bytes, i: nat)
    requires 8 * i + 8 <= |b|
    ensures EntriesOf(b[..8 * (i + 1)]) ==
            match EntriesOf(b[..8 * i])
            case None => None
            case Some(init) => match EntryOf(b[8 * i..8 * i + 8])
                               case None => None
                               case Some(e) => Some(init + [e])
  {
    var c := b[..8 * (i + 1)];
    assert c[..|c| - 8] == b[..8 * i] && c[|c| - 8..] == b[8 * i..8 * i + 8];
  }

  lemma {:induction false} BadChunk(b: Bytes, n: nat)
    requires |b| % 8 == 0 && n <= |b| && n % 8 == 0 && EntriesOf(b[..n]).None?
    ensures EntriesOf(b).None?
    decreases |b|
  {
    if n < |b| {
      assert b[..|b| - 8][..n] == b[..n];
      BadChunk(b[..|b| - 8], n);
    } else {
      assert b[..n] == b;
    }
  }

  /** A named id that the format uses for "no id". */
  ghost predicate UsesUndefinedId(acl: Acl) { exists i | 0 <= i < |acl| :: acl[i].id == Some(U32_MAX) }

  lemma EntryRoundTrip(e: Entry)
    requires GoodEntry(e) && (e.id.Some? ==> e.id.value <= U32_MAX)
    ensures EntryOf(EntryBytes(e)) == if e.id == Some(U32_MAX) then None else Some(e)
  {
    hide Le32, FromLe32;
    var id := if e.id.Some? then e.id.value else U32_MAX;
    var b := EntryBytes(e);
    assert b[..2] == Le16(TagCode(e.tag)) && b[2..4] == Le16(e.perms) && b[4..] == Le32(id);
    Le32RoundTrip(id);
  }

  lemma {:induction false} EntriesRoundTrip(acl: Acl)
    requires Representable(acl) && forall i | 0 <= i < |acl| :: GoodEntry(acl[i])
    ensures EntriesOf(EntriesBytes(acl)) == if UsesUndefinedId(acl) then None else Some(acl)
  {
    hide EntryOf, EntryBytes, UsesUndefinedId, GoodEntry;
    if acl != [] {
      var init, e := acl[..|acl| - 1], acl[|acl| - 1];
      var b := EntriesBytes(acl);
      EntriesRoundTrip(init);
      EntryRoundTrip(e);
      assert b[..|b| - 8] == EntriesBytes(init) && b[|b| - 8..] == EntryBytes(e);
      assert acl == init + [e];
      UndefinedSnoc(init, e);
    } else {
      NoneUndefined();
    }
  }

  lemma UndefinedSnoc(acl: Acl, e: Entry)
    ensures UsesUndefinedId(acl + [e]) <==> UsesUndefinedId(acl) || e.id == Some(U32_MAX)
  {
    var all := acl + [e];
    assert all[|acl|] == e && forall i | 0 <= i < |acl| :: all[i] == acl[i];
  }

  lemma NoneUndefined()
    ensures !UsesUndefinedId([])
  {
  }

  /** A valid list survives its binary form exactly when no named id is 2^32 - 1,
      and is rejected otherwise. */
  lemma BinaryRoundTrip(acl: Acl)
    requires IsValid(acl) && Representable(acl)
    ensures FromBinary(ToBinary(acl)) == if UsesUndefinedId(acl) then None else Some(acl)
  {
    hide IsValid, EntriesOf, EntriesBytes;
    assert ToBinary(acl)[4..] == EntriesBytes(acl);
    ValidEntries(acl);
    EntriesRoundTrip(acl);
  }

  lemma ValidEntries(acl: Acl)
    requires IsValid(acl)
    ensures acl != [] && forall i | 0 <= i < |acl| :: GoodEntry(acl[i])
  {
  }

  // ---------------------------------------------------------------------------
  // Text form
  // ---------------------------------------------------------------------------

  predicate Bit(perms: nat, b: nat)
    requires b > 0
  {
    perms / b % 2 == 1
  }

  function FormatPerms(perms: nat): string {
    [if Bit(perms, 4) then 'r' else '-', if Bit(perms, 2) then 'w' else '-', if Bit(perms, 1) then 'x' else '-']
  }

  lemma PermsText(perms: nat)
    requires perms < 8
    ensures FormatPerms(perms) == ["---", "--x", "-w-", "-wx", "r--", "r-x", "rw-", "rwx"][perms]
  {
  }

  function ParsePerms(s: string): Option<nat> {
    if |s| != 3
       || !(s[0] == 'r' || s[0] == '-') || !(s[1] == 'w' || s[1] == '-') || !(s[2] == 'x' || s[2] == '-') then None
    else Some((if s[0] == 'r' then 4 else 0) + (if s[1] == 'w' then 2 else 0) + (if s[2] == 'x' then 1 else 0))
  }

  lemma PermsRoundTrip(perms: nat)
    requires perms < 8
    ensures ParsePerms(FormatPerms(perms)) == Some(perms)
  {
  }

  function TagName(tag: Tag): string {
    match tag
    case UserObj => "user"
    case User => "user"
    case GroupObj => "group"
    case Group => "group"
    case Mask => "mask"
    case Other => "other"
  }

  function ParseTag(name: string, anonymous: bool): Option<Tag> {
    if name == "u" || name == "user" then Some(if anonymous then UserObj else User)
    else if name == "g" || name == "group" then Some(if anonymous then GroupObj else Group)
    else if name == "m" || name == "mask" then Some(Mask)
    else if name == "o" || name == "other" then Some(Other)
    else None
  }

  /** A 32-bit number: digits, one leading plus allowed. */
  function ParseU32(s: string): Option<nat> {
    var digits := if |s| > 1 && s[0] == '+' then s[1..] else s;
    match Value(digits)
    case None => None
    case Some(n) => if n <= U32_MAX then Some(n) else None
  }

  function IdText(id: Option<nat>): string { if id.None? then "" else Digits(id.value) }

  function FormatEntry(e: Entry): string { TagName(e.tag) + [':'] + IdText(e.id) + [':'] + FormatPerms(e.perms) }

  function ParseEntry(raw: string): Option<Entry> {
    var parts := Split(raw, ':');
    if |parts| != 3 then None
    else
      var tag := ParseTag(parts[0], parts[1] == "");
      var id := if parts[1] == "" then None else ParseU32(parts[1]);
      var perms := ParsePerms(parts[2]);
      if tag.None? || (parts[1] != "" && id.None?) || !ValidId(tag.value, id) || perms.None? then None
      else Some(Entry(tag.value, id, perms.value))
  }

  function Format(acl: Acl): string {
    if acl == [] then ""
    else if |acl| == 1 then FormatEntry(acl[0])
    else Format(acl[..|acl| - 1]) + [','] + FormatEntry(acl[|acl| - 1])
  }

  /** The characters trimmed around an entry: Unicode white space. */
  predicate IsSpace(c: char) {
    || '\t' <= c <= '\r' || c == ' ' || c == '\U{85}' || c == '\U{A0}' || c == '\U{1680}'
    || '\U{2000}' <= c <= '\U{200A}'
    || c == '\U{2028}' || c == '\U{2029}' || c == '\U{202F}' || c == '\U{205F}' || c == '\U{3000}'
  }

  function Trim(s: string): string
    decreases |s|
  {
    if s == "" then ""
    else if IsSpace(s[0]) then Trim(s[1..])
    else if IsSpace(s[|s| - 1]) then Trim(s[..|s| - 1])
    else s
  }

  function ParseParts(parts: seq<string>): Option<Acl> {
    if parts == [] then Some([])
    else match ParseParts(parts[..|parts| - 1])
      case None => None
      case Some(acl) =>
        var raw := Trim(parts[|parts| - 1]);
        if raw == "" then Some(acl)
        else match ParseEntry(raw)
          case None => None
          case Some(e) => Some(acl + [e])
  }

  /** The list a text stands for; none when it is malformed or not valid. */
  ghost function FromText(spec: string): Option<Acl> {
    match ParseParts(Split(spec, ','))
    case None => None
    case Some(acl) => if IsValid(acl) then Some(acl) else None
  }

  method ParseText(spec: string) returns (r: Option<Acl>)
    ensures r == FromText(spec)
  {
    hide IsValid, ParseEntry, Trim, Split;
    var parts := Split(spec, ',');
    var entries: Acl := [];
    for i := 0 to |parts|
      invariant ParseParts(parts[..i]) == Some(entries)
    {
      assert parts[..i + 1][..i] == parts[..i];
      var raw := Trim(parts[i]);
      if raw == "" { continue; }
      var e := ParseEntry(raw);
      if e.None? {
        BadPart(parts, i + 1);
        return None;
      }
      entries := entries + [e.value];
    }
    assert parts[..|parts|] == parts;
    var ok := Validate(entries);
    r := if ok then Some(entries) else None;
  }

  lemma {:induction false} BadPart(parts: seq<string>, n: nat)
    requires n <= |parts| && ParseParts(parts[..n]).None?
    ensures ParseParts(parts).None?
    decreases |parts|
  {
    hide ParseEntry, Trim;
    if n < |parts| {
      assert parts[..|parts| - 1][..n] == parts[..n];
      BadPart(parts[..|parts| - 1], n);
    } else {
      assert parts[..n] == parts;
    }
  }

  lemma IdTextRoundTrip(id: nat)
    requires id <= U32_MAX
    ensures Digits(id) != "" && ParseU32(Digits(id)) == Some(id)
  {
    ValueOfDigits(id);
  }

  /** What an entry's text is made of: no separator and no space. */
  lemma EntryText(e: Entry)
    ensures ':' !in TagName(e.tag) && ':' !in IdText(e.id) && ':' !in FormatPerms(e.perms)
    ensures ',' !in FormatEntry(e) && FormatEntry(e) != "" && Trim(FormatEntry(e)) == FormatEntry(e)
  {
    hide Digits;
    var text := FormatEntry(e);
    assert text[0] == TagName(e.tag)[0] && text[|text| - 1] == FormatPerms(e.perms)[2];
    assert ':' !in IdText(e.id) && ',' !in IdText(e.id);
  }

  lemma EntryTextRoundTrip(e: Entry)
    requires GoodEntry(e) && (e.id.Some? ==> e.id.value <= U32_MAX)
    ensures ParseEntry(FormatEntry(e)) == Some(e)
  {
    hide Split, Digits, ParseU32, FormatPerms, ParsePerms, Trim;
    EntryText(e);
    SplitSingle(TagName(e.tag), ':');
    SplitAppend(TagName(e.tag), IdText(e.id), ':');
    SplitAppend(TagName(e.tag) + [':'] + IdText(e.id), FormatPerms(e.perms), ':');
    var parts := Split(FormatEntry(e), ':');
    assert parts == [TagName(e.tag)] + [IdText(e.id)] + [FormatPerms(e.perms)];
    PermsRoundTrip(e.perms);
    if e.id.Some? { IdTextRoundTrip(e.id.value); }
    TagNameRoundTrip(e.tag, e.id);
  }

  lemma TagNameRoundTrip(tag: Tag, id: Option<nat>)
    requires ValidId(tag, id)
    ensures ParseTag(TagName(tag), id.None?) == Some(tag)
  {
  }

  function Texts(acl: Acl): seq<string> { seq(|acl|, i requires 0 <= i < |acl| => FormatEntry(acl[i])) }

  lemma {:induction false} SplitFormat(acl: Acl)
    requires acl != []
    ensures Split(Format(acl), ',') == Texts(acl)
  {
    hide Split, FormatEntry, Trim;
    var init, e := acl[..|acl| - 1], acl[|acl| - 1];
    EntryText(e);
    if |acl| == 1 {
      SplitSingle(FormatEntry(e), ',');
    } else {
      SplitFormat(init);
      SplitAppend(Format(init), FormatEntry(e), ',');
      assert Texts(acl) == Texts(init) + [FormatEntry(e)];
    }
  }

  lemma {:induction false} PartsRoundTrip(acl: Acl)
    requires Representable(acl) && forall i | 0 <= i < |acl| :: GoodEntry(acl[i])
    ensures ParseParts(Texts(acl)) == Some(acl)
  {
    hide FormatEntry, ParseEntry, Trim, GoodEntry, Texts;
    if acl == [] {
      assert Texts(acl) == [] by { TextsLength(acl); }
    } else {
      var init, e := acl[..|acl| - 1], acl[|acl| - 1];
      TextsLength(acl);
      PartsRoundTrip(init);
      EntryText(e);
      EntryTextRoundTrip(e);
      assert acl == init + [e];
    }
  }

  lemma TextsLength(acl: Acl)
    ensures |Texts(acl)| == |acl|
    ensures acl != [] ==>
              Texts(acl)[..|acl| - 1] == Texts(acl[..|acl| - 1]) && Texts(acl)[|acl| - 1] == FormatEntry(acl[|acl| - 1])
  {
  }

  /** A valid list survives its text form. */
  lemma TextRoundTrip(acl: Acl)
    requires IsValid(acl) && Representable(acl)
    ensures FromText(Format(acl)) == Some(acl)
  {
    hide IsValid, Split, Format, ParseParts, Texts;
    ValidEntries(acl);
    SplitFormat(acl);
    PartsRoundTrip(acl);
  }

  /** Such a list exists: the text form takes it and the binary form refuses it. */
  lemma UndefinedIdRejected()
    ensures var acl := [Entry(UserObj, None, 7), Entry(User, Some(U32_MAX), 4), Entry(GroupObj, None, 5),
                        Entry(Mask, None, 7), Entry(Other, None, 0)];
            && IsValid(acl) && Representable(acl)
            && FromText(Format(acl)) == Some(acl) && FromBinary(ToBinary(acl)) == None
  {
    hide FromText, FromBinary, Format, ToBinary;
    var owner := [Entry(UserObj, None, 7)];
    var named := owner + [Entry(User, Some(U32_MAX), 4)];
    var group := named + [Entry(GroupObj, None, 5)];
    var masked := group + [Entry(Mask, None, 7)];
    var acl := masked + [Entry(Other, None, 0)];
    forall tag: Tag
      ensures CountTag(acl, tag) == 1 || (tag == Group && CountTag(acl, tag) == 0)
    {
      assert CountTag([], tag) == 0 && owner[..0] == [];
      CountSnoc([], Entry(UserObj, None, 7), tag);
      assert [] + [Entry(UserObj, None, 7)] == owner;
      CountSnoc(owner, Entry(User, Some(U32_MAX), 4), tag);
      CountSnoc(named, Entry(GroupObj, None, 5), tag);
      CountSnoc(group, Entry(Mask, None, 7), tag);
      CountSnoc(masked, Entry(Other, None, 0), tag);
    }
    assert acl == [Entry(UserObj, None, 7), Entry(User, Some(U32_MAX), 4), Entry(GroupObj, None, 5),
                   Entry(Mask, None, 7), Entry(Other, None, 0)];
    assert acl[1].id == Some(U32_MAX);
    BinaryRoundTrip(acl);
    TextRoundTrip(acl);
  }

  // ---------------------------------------------------------------------------
  // Mode bits
  // ---------------------------------------------------------------------------

  predicate HasTag(acl: Acl, tag: Tag) { exists i | 0 <= i < |acl| :: acl[i].tag == tag }

  /** The permissions of the first entry with a tag. */
  function FindPerms(acl: Acl, tag: Tag): (r: Option<nat>)
    ensures r.Some? <==> HasTag(acl, tag)
    ensures r.Some? ==> exists i | 0 <= i < |acl| :: acl[i].tag == tag && acl[i].perms == r.value
  {
    if acl == [] then None
    else if acl[0].tag == tag then Some(acl[0].perms)
    else
      var r := FindPerms(acl[1..], tag);
      assert forall i | 0 < i < |acl| :: acl[i] == acl[1..][i - 1];
      r
  }

  function WithMode(e: Entry, mode: nat, hasMask: bool): Entry {
    match e.tag
    case UserObj => e.(perms := mode / 64 % 8)
    case Mask => e.(perms := mode / 8 % 8)
    case GroupObj => if hasMask then e else e.(perms := mode / 8 % 8)
    case Other => e.(perms := mode % 8)
    case _ => e
  }

  function ApplyMode(acl: Acl, mode: nat): (r: Acl)
    ensures |r| == |acl|
  {
    seq(|acl|, i requires 0 <= i < |acl| => WithMode(acl[i], mode, HasTag(acl, Mask)))
  }

  /** Mode bits put over the entries in place. */
  method ApplyModeInPlace(entries: array<Entry>, mode: nat)
    modifies entries
    ensures entries[..] == ApplyMode(old(entries[..]), mode)
  {
    var hasMask := false;
    for i := 0 to entries.Length
      invariant hasMask <==> HasTag(entries[..i], Mask)
    {
      assert entries[..i + 1] == entries[..i] + [entries[i]];
      if entries[i].tag == Mask { hasMask := true; }
      assert forall j | 0 <= j < i :: entries[..i + 1][j] == entries[..i][j];
    }
    assert entries[..entries.Length] == entries[..];
    for i := 0 to entries.Length
      invariant forall j | 0 <= j < i :: entries[j] == WithMode(old(entries[j]), mode, hasMask)
      invariant forall j | i <= j < entries.Length :: entries[j] == old(entries[j])
    {
      entries[i] := WithMode(entries[i], mode, hasMask);
    }
  }

  function OrElse(r: Option<nat>, default: nat): nat { if r.Some? then r.value else default }

  function ModeFrom(acl: Acl, current: nat): nat {
    var owner := OrElse(FindPerms(acl, UserObj), current / 64 % 8);
    var group := OrElse(if HasTag(acl, Mask) then FindPerms(acl, Mask) else FindPerms(acl, GroupObj), current / 8 % 8);
    var other := OrElse(FindPerms(acl, Other), current % 8);
    current / 512 * 512 + owner * 64 + group * 8 + other
  }

  lemma ApplyKeepsTags(acl: Acl, mode: nat, tag: Tag)
    ensures HasTag(ApplyMode(acl, mode), tag) <==> HasTag(acl, tag)
  {
    var r := ApplyMode(acl, mode);
    assert forall i | 0 <= i < |acl| :: r[i].tag == acl[i].tag;
  }

  lemma AppliedPerms(acl: Acl, mode: nat)
    ensures var r := ApplyMode(acl, mode);
            && (HasTag(acl, UserObj) ==> FindPerms(r, UserObj) == Some(mode / 64 % 8))
            && (HasTag(acl, Mask) ==> FindPerms(r, Mask) == Some(mode / 8 % 8))
            && (HasTag(acl, GroupObj) && !HasTag(acl, Mask) ==> FindPerms(r, GroupObj) == Some(mode / 8 % 8))
            && (HasTag(acl, Other) ==> FindPerms(r, Other) == Some(mode % 8))
  {
    hide FindPerms, HasTag;
    ApplyKeepsTags(acl, mode, UserObj);
    ApplyKeepsTags(acl, mode, Mask);
    ApplyKeepsTags(acl, mode, GroupObj);
    ApplyKeepsTags(acl, mode, Other);
  }

  lemma {:induction false} CountedTag(acl: Acl, tag: Tag)
    ensures CountTag(acl, tag) > 0 <==> HasTag(acl, tag)
  {
    if acl != [] {
      var init := acl[..|acl| - 1];
      CountedTag(init, tag);
      assert forall i | 0 <= i < |init| :: init[i] == acl[i];
      assert HasTag(acl, tag) <==> HasTag(init, tag) || acl[|acl| - 1].tag == tag;
    }
  }

  /** Applying a mode to a valid list and reading it back gives the mode's
      permission bits over the current other bits. */
  lemma ModeRoundTrip(acl: Acl, mode: nat, current: nat)
    requires IsValid(acl)
    ensures ModeFrom(ApplyMode(acl, mode), current) == current / 512 * 512 + mode % 512
    ensures ModeFrom(ApplyMode(acl, mode), mode) == mode
  {
    hide FindPerms, HasTag, ApplyMode;
    CountedTag(acl, UserObj);
    CountedTag(acl, GroupObj);
    CountedTag(acl, Other);
    AppliedPerms(acl, mode);
    ApplyKeepsTags(acl, mode, Mask);
    ModeDigits(mode);
  }

  lemma ModeDigits(mode: nat)
    ensures mode / 64 % 8 * 64 + mode / 8 % 8 * 8 + mode % 8 == mode % 512
    ensures mode / 512 * 512 + mode % 512 == mode
  {
    var q, a := mode / 8, mode % 8;
    var p, b := q / 8, q % 8;
    var t, c := p / 8, p % 8;
    assert mode == p * 64 + (b * 8 + a);
    DivModUnique(mode, 64, p, b * 8 + a);
    DivModUnique(mode, 512, t, c * 64 + b * 8 + a);
  }

  /** Applying a mode keeps a list valid and its named entries as they were. */
  lemma ApplyKeepsValid(acl: Acl, mode: nat)
    requires IsValid(acl)
    ensures IsValid(ApplyMode(acl, mode))
    ensures forall i | 0 <= i < |acl| && Named(acl[i].tag) :: ApplyMode(acl, mode)[i] == acl[i]
  {
    hide CountTag;
    var r := ApplyMode(acl, mode);
    forall i | 0 <= i < |acl| ensures r[i].tag == acl[i].tag && r[i].id == acl[i].id && GoodEntry(r[i]) {
      assert GoodEntry(acl[i]);
    }
    SameCounts(acl, r, UserObj);
    SameCounts(acl, r, GroupObj);
    SameCounts(acl, r, Mask);
    SameCounts(acl, r, Other);
  }

  lemma {:induction false} SameCounts(a: Acl, b: Acl, tag: Tag)
    requires |a| == |b| && forall i | 0 <= i < |a| :: a[i].tag == b[i].tag
    ensures CountTag(a, tag) == CountTag(b, tag)
  {
    if a != [] { SameCounts(a[..|a| - 1], b[..|b| - 1], tag); }
  }
}
