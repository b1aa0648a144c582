/** The structural delta between two JSON documents and its application, op by
    op, through JSON pointers. */
module JsonPatch {
  import opened Arithmetic
  import opened Decimal
  import opened Wrappers
  import opened Json

  datatype Op =
    | Add(path: string, value: Json)
    | Remove(path: string)
    | Replace(path: string, value: Json)

  datatype PatchError = InvalidPatch

  // ---------------------------------------------------------------------------
  // Walking a document
  // ---------------------------------------------------------------------------

  function ParseDigits(s: string): Option<nat> {
    if s == "" then Some(0)
    else match ParseDigits(s[..|s| - 1])
      case None => None
      case Some(n) =>
        var c := s[|s| - 1];
        if '0' <= c <= '9' && 10 * n + (c - '0') as nat <= U64_MAX
        then Some(10 * n + (c - '0') as nat) else None
  }

  /** `str::parse::<usize>`: an optional plus sign and at least one digit. */
  function ParseUsize(s: string): Option<nat> {
    var digits := if s != "" && s[0] == '+' then s[1..] else s;
    if digits == "" then None else ParseDigits(digits)
  }

  /** The stricter index syntax a pointer step uses inside an array. */
  function ParseIndex(s: string): Option<nat> {
    if s != "" && (s[0] == '+' || (s[0] == '0' && |s| != 1)) then None else ParseUsize(s)
  }

  /** One pointer step. */
  function Child(v: Json, token: string): Option<Json> {
    match v
    case Obj(m) => if token in m then Some(m[token]) else None
    case Arr(items) =>
      (match ParseIndex(token)
       case Some(i) => if i < |items| then Some(items[i]) else None
       case None => None)
    case _ => None
  }

  function Lookup(v: Json, tokens: seq<string>): Option<Json> {
    if tokens == [] then Some(v)
    else match Child(v, tokens[0])
      case None => None
      case Some(c) => Lookup(c, tokens[1..])
  }

  function SetChild(v: Json, token: string, x: Json): Json
    requires Child(v, token).Some?
  {
    match v
    case Obj(m) => Obj(m[token := x])
    case Arr(items) => Arr(items[ParseIndex(token).value := x])
  }

  /** Writing `x` through the reference that `Lookup` returns. */
  function Store(v: Json, tokens: seq<string>, x: Json): Json
    requires Lookup(v, tokens).Some?
  {
    if tokens == [] then x
    else SetChild(v, tokens[0], Store(Child(v, tokens[0]).value, tokens[1..], x))
  }

  function GetPointer(v: Json, path: string): Option<Json> {
    match Tokens(path)
    case None => None
    case Some(tokens) => Lookup(v, tokens)
  }

  // ---------------------------------------------------------------------------
  // Applying one operation
  // ---------------------------------------------------------------------------

  function InsertInto(parent: Json, key: string, next: Json): Option<Json> {
    match parent
    case Obj(m) => Some(Obj(m[key := next]))
    case Arr(items) =>
      (match ParseUsize(key)
       case None => None
       case Some(i) =>
         if i > |items| then None
         else if i == |items| then Some(Arr(items + [next]))
         else Some(Arr(items[i := next])))
    case _ => None
  }

  function RemoveFrom(parent: Json, key: string): Option<Json> {
    match parent
    case Obj(m) => if key in m then Some(Obj(m - {key})) else None
    case Arr(items) =>
      (match ParseUsize(key)
       case None => None
       case Some(i) => if i >= |items| then None else Some(Arr(items[..i] + items[i + 1..])))
    case _ => None
  }

  /** Changes the parent of the value `path` names and stores it back: the shape
      shared by setting and removing a pointer. */
  function EditParent(v: Json, path: string, edit: (Json, string) -> Option<Json>): Result<Json, PatchError> {
    match Tokens(path)
    case None => Err(InvalidPatch)
    case Some(parts) =>
      if parts == [] then Err(InvalidPatch)
      else
        var key := parts[|parts| - 1];
        var parentPath := PointerOf(parts[..|parts| - 1]);
        match GetPointer(v, parentPath)
        case None => Err(InvalidPatch)
        case Some(parent) =>
          match edit(parent, key)
          case None => Err(InvalidPatch)
          case Some(changed) => Ok(Store(v, Tokens(parentPath).value, changed))
  }

  /** The edit that puts `next` in, or takes the member out. */
  function Editor(next: Option<Json>): (Json, string) -> Option<Json> {
    (parent, key) => if next.Some? then InsertInto(parent, key, next.value) else RemoveFrom(parent, key)
  }

  function SetPointer(v: Json, path: string, next: Json): Result<Json, PatchError> {
    if path == "" then Ok(next)
    else EditParent(v, path, Editor(Some(next)))
  }

  function RemovePointer(v: Json, path: string): Result<Json, PatchError> {
    if path == "" then Ok(Null) else EditParent(v, path, Editor(None))
  }

  function ApplyOp(v: Json, op: Op): Result<Json, PatchError> {
    match op
    case Add(path, next) => SetPointer(v, path, next)
    case Replace(path, next) =>
      if path == "" then Ok(next)
      else if GetPointer(v, path).Some? then SetPointer(v, path, next)
      else Err(InvalidPatch)
    case Remove(path) => RemovePointer(v, path)
  }

  function ApplyAll(v: Json, ops: seq<Op>): Result<Json, PatchError>
    decreases |ops|
  {
    if ops == [] then Ok(v)
    else match ApplyOp(v, ops[0])
      case Err(e) => Err(e)
      case Ok(w) => ApplyAll(w, ops[1..])
  }

  /** Nodes that follow one another along the tokens. */
  ghost predicate Spine(spine: seq<Json>, tokens: seq<string>) {
    |spine| == |tokens| + 1 && forall i | 0 <= i < |tokens| :: Child(spine[i], tokens[i]) == Some(spine[i + 1])
  }

  /** A document changed in place by delta operations. */
  class Document {
    var value: Json

    constructor (value: Json)
      ensures this.value == value
    {
      this.value := value;
    }

    /** The nodes from the root down to the one `tokens` names. */
    method Descend(tokens: seq<string>) returns (spine: seq<Json>, found: bool)
      ensures found <==> Lookup(value, tokens).Some?
      ensures found ==> Spine(spine, tokens) && spine[0] == value && Lookup(value, tokens) == Some(spine[|tokens|])
    {
      spine := [value];
      for i := 0 to |tokens|
        invariant Spine(spine, tokens[..i]) && spine[0] == value
        invariant Lookup(value, tokens) == Lookup(spine[i], tokens[i..])
      {
        var next := Child(spine[i], tokens[i]);
        if next.None? { return spine, false; }
        spine := spine + [next.value];
        assert tokens[i..][1..] == tokens[i + 1..];
      }
      assert tokens[..|tokens|] == tokens;
      found := true;
    }

    /** The node at the end of the spine replaced, and its ancestors with it. */
    method Ascend(spine: seq<Json>, tokens: seq<string>, changed: Json)
      requires Spine(spine, tokens) && spine[0] == value
      modifies this
      ensures Lookup(old(value), tokens).Some? && value == Store(old(value), tokens, changed)
    {
      var node := changed;
      for i := |tokens| downto 0
        invariant Lookup(spine[i], tokens[i..]).Some? && node == Store(spine[i], tokens[i..], changed)
      {
        assert tokens[i..][0] == tokens[i] && tokens[i..][1..] == tokens[i + 1..];
        node := SetChild(spine[i], tokens[i], node);
      }
      assert tokens[0..] == tokens;
      value := node;
    }

    /** Inserts `next` under the last token of the path, or removes that member. */
    method EditPointer(path: string, next: Option<Json>) returns (r: Result<(), PatchError>)
      modifies this
      ensures var edited := EditParent(old(value), path, Editor(next));
              r.Ok? == edited.Ok? && value == if edited.Ok? then edited.value else old(value)
    {
      hide Lookup, Store, Tokens, PointerOf, InsertInto, RemoveFrom;
      var parts := Tokens(path);
      if parts.None? || parts.value == [] { return Err(InvalidPatch); }
      var key := parts.value[|parts.value| - 1];
      var tokens := Tokens(PointerOf(parts.value[..|parts.value| - 1]));
      if tokens.None? { return Err(InvalidPatch); }
      var spine, found := Descend(tokens.value);
      if !found { return Err(InvalidPatch); }
      var parent := spine[|tokens.value|];
      var changed := if next.Some? then InsertInto(parent, key, next.value) else RemoveFrom(parent, key);
      if changed.None? { return Err(InvalidPatch); }
      Ascend(spine, tokens.value, changed.value);
      r := Ok(());
    }

    method ApplyDeltaOp(op: Op) returns (r: Result<(), PatchError>)
      modifies this
      ensures r.Ok? <==> ApplyOp(old(value), op).Ok?
      ensures value == if r.Ok? then ApplyOp(old(value), op).value else old(value)
    {
      hide EditParent, Lookup, Tokens;
      if op.path == "" {
        value := if op.Remove? then Null else op.value;
        return Ok(());
      }
      if op.Replace? {
        var tokens := Tokens(op.path);
        if tokens.None? { return Err(InvalidPatch); }
        var _, found := Descend(tokens.value);
        if !found { return Err(InvalidPatch); }
      }
      r := EditPointer(op.path, if op.Remove? then None else Some(op.value));
    }

    /** Operation by operation, up to the first that fails. */
    method ApplyDelta(delta: seq<Op>) returns (r: Result<(), PatchError>)
      modifies this
      ensures r.Ok? <==> ApplyAll(old(value), delta).Ok?
      ensures r.Ok? ==> value == ApplyAll(old(value), delta).value
      ensures r.Err? ==> exists n: nat ::
                n < |delta| && ApplyAll(old(value), delta[..n]) == Ok(value) && ApplyOp(value, delta[n]).Err?
    {
      hide ApplyOp;
      var i := 0;
      while i < |delta|
        invariant 0 <= i <= |delta|
        invariant ApplyAll(old(value), delta[..i]) == Ok(value)
        invariant ApplyAll(old(value), delta) == ApplyAll(value, delta[i..])
      {
        assert delta[i..][0] == delta[i] && delta[i..][1..] == delta[i + 1..];
        r := ApplyDeltaOp(delta[i]);
        if r.Err? {
          return;
        }
        ApplySnoc(old(value), delta[..i], delta[i]);
        assert delta[..i + 1] == delta[..i] + [delta[i]];
        i := i + 1;
      }
      assert delta[..|delta|] == delta;
      r := Ok(());
    }
  }

  // ---------------------------------------------------------------------------
  // The structural difference
  // ---------------------------------------------------------------------------

  function Without(keys: seq<string>, m: map<string, Json>): (r: seq<string>)
    requires Distinct(keys)
    ensures forall k :: k in r <==> k in keys && k !in m
    ensures Distinct(r)
  {
    if keys == [] then []
    else
      var init := keys[..|keys| - 1];
      var last := keys[|keys| - 1];
      var rest := Without(init, m);
      if last in m then rest else rest + [last]
  }

  function Removals(path: string, keys: seq<string>): seq<Op> {
    if keys == [] then []
    else Removals(path, keys[..|keys| - 1]) + [Remove(PushPointer(path, keys[|keys| - 1]))]
  }

  function Diff(path: string, a: Json, b: Json): seq<Op>
    decreases b, 1, 0
  {
    if a.Obj? && b.Obj? then
      Removals(path, Without(SortedKeys(a.members.Keys), b.members))
      + DiffMembers(path, a, b, SortedKeys(b.members.Keys))
    else if a != b then [Replace(path, b)]
    else []
  }

  function DiffMembers(path: string, a: Json, b: Json, keys: seq<string>): seq<Op>
    requires a.Obj? && b.Obj?
    requires forall k | k in keys :: k in b.members
    decreases b, 0, |keys|
  {
    if keys == [] then []
    else
      var init, key := keys[..|keys| - 1], keys[|keys| - 1];
      DiffMembers(path, a, b, init) + DiffMember(path, a, b, key)
  }

  function DiffMember(path: string, a: Json, b: Json, key: string): seq<Op>
    requires a.Obj? && b.Obj? && key in b.members
    decreases b, 0, 0
  {
    var child := PushPointer(path, key);
    if key in a.members then Diff(child, a.members[key], b.members[key])
    else [Add(child, b.members[key])]
  }

  /** The first loop of the walk: one removal per member that is gone. */
  method PushRemovals(path: string, gone: seq<string>, ops: seq<Op>) returns (out: seq<Op>)
    ensures out == ops + Removals(path, gone)
  {
    out := ops;
    for i := 0 to |gone|
      invariant out == ops + Removals(path, gone[..i])
    {
      assert gone[..i + 1][..i] == gone[..i];
      out := out + [Remove(PushPointer(path, gone[i]))];
    }
    assert gone[..|gone|] == gone;
  }

  /** The recursive walk that pushes onto a shared vector. */
  method DiffInto(path: string, previous: Json, next: Json, ops: seq<Op>) returns (out: seq<Op>)
    ensures out == ops + Diff(path, previous, next)
    decreases next, 1
  {
    hide Escape, SortedKeys, Without, DiffMembers, Removals;
    if previous.Obj? && next.Obj? {
      out := PushRemovals(path, Without(SortedKeys(previous.members.Keys), next.members), ops);
      out := DiffMembersInto(path, previous, next, SortedKeys(next.members.Keys), out);
    } else if previous != next {
      out := ops + [Replace(path, next)];
    } else {
      out := ops;
    }
  }

  /** The second loop of the walk: one step per member of the right-hand object. */
  method DiffMembersInto(path: string, previous: Json, next: Json, keys: seq<string>, ops: seq<Op>)
    returns (out: seq<Op>)
    requires previous.Obj? && next.Obj? && forall k | k in keys :: k in next.members
    ensures out == ops + DiffMembers(path, previous, next, keys)
    decreases next, 0
  {
    hide Escape, SortedKeys;
    out := ops;
    for i := 0 to |keys|
      invariant out == ops + DiffMembers(path, previous, next, keys[..i])
    {
      var key := keys[i];
      assert keys[..i + 1][..i] == keys[..i];
      if key in previous.members {
        out := DiffInto(PushPointer(path, key), previous.members[key], next.members[key], out);
      } else {
        out := out + [Add(PushPointer(path, key), next.members[key])];
      }
    }
    assert keys[..|keys|] == keys;
  }

  // ---------------------------------------------------------------------------
  // Laws of Lookup and Store
  // ---------------------------------------------------------------------------

  lemma {:induction false} LookupStore(v: Json, tokens: seq<string>, x: Json)
    requires Lookup(v, tokens).Some?
    ensures Lookup(Store(v, tokens, x), tokens) == Some(x)
  {
    if tokens != [] {
      LookupStore(Child(v, tokens[0]).value, tokens[1..], x);
    }
  }

  lemma {:induction false} StoreStore(v: Json, tokens: seq<string>, x: Json, y: Json)
    requires Lookup(v, tokens).Some?
    ensures Lookup(Store(v, tokens, x), tokens).Some?
    ensures Store(Store(v, tokens, x), tokens, y) == Store(v, tokens, y)
  {
    LookupStore(v, tokens, x);
    if tokens != [] {
      StoreStore(Child(v, tokens[0]).value, tokens[1..], x, y);
    }
  }

  lemma {:induction false} StoreSame(v: Json, tokens: seq<string>)
    requires Lookup(v, tokens).Some?
    ensures Store(v, tokens, Lookup(v, tokens).value) == v
  {
    if tokens != [] {
      StoreSame(Child(v, tokens[0]).value, tokens[1..]);
    }
  }

  lemma {:induction false} LookupSnoc(v: Json, tokens: seq<string>, key: string)
    ensures Lookup(v, tokens + [key]) ==
            match Lookup(v, tokens) { case None => None case Some(p) => Child(p, key) }
  {
    if tokens == [] {
      assert (tokens + [key])[1..] == [];
    } else {
      assert (tokens + [key])[1..] == tokens[1..] + [key];
      if Child(v, tokens[0]).Some? {
        LookupSnoc(Child(v, tokens[0]).value, tokens[1..], key);
      }
    }
  }

  lemma {:induction false} StoreSnoc(v: Json, tokens: seq<string>, key: string, x: Json)
    requires Lookup(v, tokens).Some? && Child(Lookup(v, tokens).value, key).Some?
    ensures Lookup(v, tokens + [key]).Some?
    ensures Store(v, tokens + [key], x) == Store(v, tokens, SetChild(Lookup(v, tokens).value, key, x))
  {
    LookupSnoc(v, tokens, key);
    if tokens == [] {
      assert (tokens + [key])[1..] == [];
    } else {
      assert (tokens + [key])[1..] == tokens[1..] + [key];
      StoreSnoc(Child(v, tokens[0]).value, tokens[1..], key, x);
    }
  }

  lemma {:induction false} ApplyAllConcat(v: Json, xs: seq<Op>, ys: seq<Op>)
    requires ApplyAll(v, xs).Ok?
    ensures ApplyAll(v, xs + ys) == ApplyAll(ApplyAll(v, xs).value, ys)
    decreases |xs|
  {
    if xs == [] {
      assert xs + ys == ys;
    } else {
      assert (xs + ys)[1..] == xs[1..] + ys;
      ApplyAllConcat(ApplyOp(v, xs[0]).value, xs[1..], ys);
    }
  }

  /** Applying one more operation after a sequence that succeeded. */
  lemma {:induction false} ApplyAllFails(v: Json, xs: seq<Op>, ys: seq<Op>)
    requires ApplyAll(v, xs).Err?
    ensures ApplyAll(v, xs + ys).Err?
    decreases |xs|
  {
    assert (xs + ys)[0] == xs[0] && (xs + ys)[1..] == xs[1..] + ys;
    if ApplyOp(v, xs[0]).Ok? {
      ApplyAllFails(ApplyOp(v, xs[0]).value, xs[1..], ys);
    }
  }

  lemma ApplySnoc(v: Json, xs: seq<Op>, op: Op)
    requires ApplyAll(v, xs).Ok?
    ensures ApplyAll(v, xs + [op]) == ApplyOp(ApplyAll(v, xs).value, op)
  {
    ApplyAllConcat(v, xs, [op]);
    var w := ApplyAll(v, xs).value;
    if ApplyOp(w, op).Ok? {
      assert [op][1..] == [];
      assert ApplyAll(ApplyOp(w, op).value, []) == ApplyOp(w, op);
    }
  }

  /** An edit under a longer pointer changes the parent it finds. */
  lemma EditAt(root: Json, tokens: seq<string>, key: string, next: Option<Json>)
    requires Lookup(root, tokens).Some?
    ensures PushPointer(PointerOf(tokens), key) != ""
    ensures GetPointer(root, PushPointer(PointerOf(tokens), key)) == Child(Lookup(root, tokens).value, key)
    ensures var changed := Editor(next)(Lookup(root, tokens).value, key);
            EditParent(root, PushPointer(PointerOf(tokens), key), Editor(next)) ==
              if changed.None? then Err(InvalidPatch) else Ok(Store(root, tokens, changed.value))
  {
    hide Store, Tokens, InsertInto, RemoveFrom, Child, Lookup;
    var full := tokens + [key];
    assert full[..|full| - 1] == tokens;
    assert PushPointer(PointerOf(tokens), key) == PointerOf(full);
    PointerRoundTrip(full);
    PointerRoundTrip(tokens);
    LookupSnoc(root, tokens, key);
  }

  /** What one edit does to an object member named by an arbitrary key. */
  lemma EditMember(root: Json, tokens: seq<string>, m: map<string, Json>, key: string, x: Json)
    requires Lookup(root, tokens) == Some(Obj(m))
    ensures ApplyOp(root, Add(PushPointer(PointerOf(tokens), key), x))
            == Ok(Store(root, tokens, Obj(m[key := x])))
    ensures key in m ==>
              ApplyOp(root, Replace(PushPointer(PointerOf(tokens), key), x))
              == Ok(Store(root, tokens, Obj(m[key := x])))
    ensures key in m ==>
              ApplyOp(root, Remove(PushPointer(PointerOf(tokens), key)))
              == Ok(Store(root, tokens, Obj(m - {key})))
    ensures key !in m ==>
              ApplyOp(root, Replace(PushPointer(PointerOf(tokens), key), x)).Err?
              && ApplyOp(root, Remove(PushPointer(PointerOf(tokens), key))).Err?
  {
    hide Lookup, Store, EditParent, PointerOf, PushPointer, GetPointer;
    EditAt(root, tokens, key, Some(x));
    EditAt(root, tokens, key, None);
  }

  /** A number written out is the index it stands for, up to the word size. */
  lemma {:induction false} IndexOfDigits(n: nat)
    ensures ParseDigits(Digits(n)) == if n <= U64_MAX then Some(n) else None
  {
    var s := Digits(n);
    if n >= 10 {
      IndexOfDigits(n / 10);
      assert s[..|s| - 1] == Digits(n / 10);
    } else {
      assert s[..|s| - 1] == "";
    }
  }

  lemma UsizeOfDigits(n: nat)
    ensures ParseUsize(Digits(n)) == if n <= U64_MAX then Some(n) else None
  {
    hide ParseDigits;
    assert '0' <= Digits(n)[0];
    IndexOfDigits(n);
  }

  /** What one edit does to an array element named by its number: an addition sets
      it, or appends right behind the end; a removal closes the gap; anything
      further out is an error. */
  lemma EditElement(root: Json, tokens: seq<string>, items: seq<Json>, i: nat, x: Json)
    requires Lookup(root, tokens) == Some(Arr(items)) && |items| <= U64_MAX
    ensures var path := PushPointer(PointerOf(tokens), Digits(i));
            && (i < |items| ==> ApplyOp(root, Add(path, x)) == Ok(Store(root, tokens, Arr(items[i := x]))))
            && (i == |items| ==> ApplyOp(root, Add(path, x)) == Ok(Store(root, tokens, Arr(items + [x]))))
            && (i > |items| ==> ApplyOp(root, Add(path, x)).Err?)
            && (i < |items| ==>
                  ApplyOp(root, Remove(path)) == Ok(Store(root, tokens, Arr(items[..i] + items[i + 1..]))))
            && (i >= |items| ==> ApplyOp(root, Remove(path)).Err?)
  {
    hide ParseUsize, Digits, Lookup, Store, EditParent, PointerOf, PushPointer, GetPointer;
    EditAt(root, tokens, Digits(i), Some(x));
    EditAt(root, tokens, Digits(i), None);
    UsizeOfDigits(i);
  }

  // ---------------------------------------------------------------------------
  // Patch correctness
  // ---------------------------------------------------------------------------

  /** `m` without the members `keys`. */
  ghost function Dropped<K(!new), V>(m: map<K, V>, keys: seq<K>): (r: map<K, V>)
    ensures forall k :: k in r <==> k in m && k !in keys
    ensures forall k | k in r :: r[k] == m[k]
  {
    if keys == [] then m else Dropped(m, keys[..|keys| - 1]) - {keys[|keys| - 1]}
  }

  /** `m` with the members `keys` taken from `b`. */
  ghost function Updated<K(!new), V>(m: map<K, V>, b: map<K, V>, keys: seq<K>): (r: map<K, V>)
    requires forall k | k in keys :: k in b
    ensures forall k :: k in r <==> k in m || k in keys
    ensures forall k | k in r :: r[k] == if k in keys then b[k] else m[k]
  {
    if keys == [] then m
    else
      var last := keys[|keys| - 1];
      assert last in keys;
      Updated(m, b, keys[..|keys| - 1])[last := b[last]]
  }

  lemma DroppedUpdated<K(!new), V>(a: map<K, V>, b: map<K, V>, gone: seq<K>, keys: seq<K>)
    requires forall k :: k in gone <==> k in a && k !in b
    requires forall k :: k in keys <==> k in b
    ensures Updated(Dropped(a, gone), b, keys) == b
    ensures AgreesOn(Dropped(a, gone), a, keys)
  {
  }

  lemma {:induction false} RemovalsApply(root: Json, tokens: seq<string>, m: map<string, Json>, keys: seq<string>)
    requires Lookup(root, tokens) == Some(Obj(m))
    requires Distinct(keys) && forall k | k in keys :: k in m
    ensures ApplyAll(root, Removals(PointerOf(tokens), keys)) == Ok(Store(root, tokens, Obj(Dropped(m, keys))))
  {
    if keys == [] {
      StoreSame(root, tokens);
    } else {
      var init, key := keys[..|keys| - 1], keys[|keys| - 1];
      assert key in keys && key !in init;
      RemovalsApply(root, tokens, m, init);
      var left := Dropped(m, init);
      LookupStore(root, tokens, Obj(left));
      EditMember(Store(root, tokens, Obj(left)), tokens, left, key, Null);
      ApplySnoc(root, Removals(PointerOf(tokens), init), Remove(PushPointer(PointerOf(tokens), key)));
      StoreStore(root, tokens, Obj(left), Obj(left - {key}));
    }
  }

  /** An intermediate object agrees with the left side on the keys still to come. */
  ghost predicate AgreesOn<K, V>(m: map<K, V>, a: map<K, V>, keys: seq<K>) {
    forall k | k in keys :: (k in m <==> k in a) && (k in a ==> m[k] == a[k])
  }

  /** One member of the right-hand object is brought across. */
  /** Removals fail when one of the members is not there. */
  lemma {:induction false} RemovalsFail(root: Json, tokens: seq<string>, m: map<string, Json>, keys: seq<string>,
                                        gone: string)
    requires Lookup(root, tokens) == Some(Obj(m)) && Distinct(keys) && gone in keys && gone !in m
    ensures ApplyAll(root, Removals(PointerOf(tokens), keys)).Err?
  {
    var init, key := keys[..|keys| - 1], keys[|keys| - 1];
    var op := Remove(PushPointer(PointerOf(tokens), key));
    assert keys == init + [key];
    if k :| k in init && k !in m {
      RemovalsFail(root, tokens, m, init, k);
      ApplyAllFails(root, Removals(PointerOf(tokens), init), [op]);
    } else {
      RemovalsApply(root, tokens, m, init);
      var left := Dropped(m, init);
      LookupStore(root, tokens, Obj(left));
      EditMember(Store(root, tokens, Obj(left)), tokens, left, key, Null);
      ApplySnoc(root, Removals(PointerOf(tokens), init), op);
    }
  }

  lemma {:induction false} MemberApplies(root: Json, tokens: seq<string>, m: map<string, Json>, a: Json, b: Json,
                                         key: string)
    requires a.Obj? && b.Obj? && key in b.members
    requires Lookup(root, tokens) == Some(Obj(m))
    requires (key in m <==> key in a.members) && (key in a.members ==> m[key] == a.members[key])
    ensures ApplyAll(root, DiffMember(PointerOf(tokens), a, b, key))
            == Ok(Store(root, tokens, Obj(m[key := b.members[key]])))
    decreases b, 0, 0
  {
    var path := PointerOf(tokens);
    if key in a.members {
      var full := tokens + [key];
      assert full[..|full| - 1] == tokens;
      LookupSnoc(root, tokens, key);
      StoreSnoc(root, tokens, key, b.members[key]);
      DiffApplies(root, full, a.members[key], b.members[key]);
    } else {
      EditMember(root, tokens, m, key, b.members[key]);
      ApplySnoc(root, [], Add(PushPointer(path, key), b.members[key]));
      assert [] + [Add(PushPointer(path, key), b.members[key])] == DiffMember(path, a, b, key);
    }
  }

  lemma {:induction false} MembersApply(root: Json, tokens: seq<string>, m: map<string, Json>, a: Json, b: Json,
                                        keys: seq<string>)
    requires a.Obj? && b.Obj? && Distinct(keys)
    requires forall k | k in keys :: k in b.members
    requires Lookup(root, tokens) == Some(Obj(m)) && AgreesOn(m, a.members, keys)
    ensures ApplyAll(root, DiffMembers(PointerOf(tokens), a, b, keys))
            == Ok(Store(root, tokens, Obj(Updated(m, b.members, keys))))
    decreases b, 0, |keys|
  {
    if keys == [] {
      assert Updated(m, b.members, keys) == m;
      StoreSame(root, tokens);
    } else {
      var init, key := keys[..|keys| - 1], keys[|keys| - 1];
      assert key in keys && key !in init;
      var cur := Updated(m, b.members, init);
      var path := PointerOf(tokens);
      MembersApply(root, tokens, m, a, b, init);
      LookupStore(root, tokens, Obj(cur));
      MemberApplies(Store(root, tokens, Obj(cur)), tokens, cur, a, b, key);
      ApplyAllConcat(root, DiffMembers(path, a, b, init), DiffMember(path, a, b, key));
      StoreStore(root, tokens, Obj(cur), Obj(cur[key := b.members[key]]));
    }
  }

  /** Two objects: removals first, then member by member. */
  lemma {:induction false} ObjectsApply(root: Json, tokens: seq<string>, a: Json, b: Json)
    requires a.Obj? && b.Obj? && Lookup(root, tokens) == Some(a)
    ensures ApplyAll(root, Diff(PointerOf(tokens), a, b)) == Ok(Store(root, tokens, b))
    decreases b, 0, |SortedKeys(b.members.Keys)| + 1
  {
    var path := PointerOf(tokens);
    var gone := Without(SortedKeys(a.members.Keys), b.members);
    var kept := Dropped(a.members, gone);
    var keys := SortedKeys(b.members.Keys);
    DroppedUpdated(a.members, b.members, gone, keys);
    RemovalsApply(root, tokens, a.members, gone);
    LookupStore(root, tokens, Obj(kept));
    MembersApply(Store(root, tokens, Obj(kept)), tokens, kept, a, b, keys);
    ApplyAllConcat(root, Removals(path, gone), DiffMembers(path, a, b, keys));
    StoreStore(root, tokens, Obj(kept), b);
  }

  /** Applied inside any document, at any object path, the difference turns the
      left value into the right one and touches nothing else. */
  lemma {:induction false} DiffApplies(root: Json, tokens: seq<string>, a: Json, b: Json)
    requires Lookup(root, tokens) == Some(a)
    requires tokens != [] ==>
               Lookup(root, tokens[..|tokens| - 1]).Some? && Lookup(root, tokens[..|tokens| - 1]).value.Obj?
    ensures ApplyAll(root, Diff(PointerOf(tokens), a, b)) == Ok(Store(root, tokens, b))
    decreases b, 1, 0
  {
    if a.Obj? && b.Obj? {
      ObjectsApply(root, tokens, a, b);
    } else if a != b {
      ReplaceApplies(root, tokens, a, b);
    } else {
      StoreSame(root, tokens);
    }
  }

  lemma ReplaceApplies(root: Json, tokens: seq<string>, a: Json, b: Json)
    requires Lookup(root, tokens) == Some(a)
    requires tokens != [] ==>
               Lookup(root, tokens[..|tokens| - 1]).Some? && Lookup(root, tokens[..|tokens| - 1]).value.Obj?
    ensures ApplyAll(root, [Replace(PointerOf(tokens), b)]) == Ok(Store(root, tokens, b))
  {
    var op := Replace(PointerOf(tokens), b);
    ApplySnoc(root, [], op);
    assert [] + [op] == [op];
    if tokens != [] {
      var init, key := tokens[..|tokens| - 1], tokens[|tokens| - 1];
      assert tokens == init + [key];
      LookupSnoc(root, init, key);
      var m := Lookup(root, init).value.members;
      EditMember(root, init, m, key, b);
      StoreSnoc(root, init, key, b);
    }
  }

  /** Patch correctness: for all documents, applying the difference succeeds and
      yields exactly the right-hand document. */
  lemma PatchCorrect(a: Json, b: Json)
    ensures ApplyAll(a, Diff("", a, b)) == Ok(b)
  {
    DiffApplies(a, [], a, b);
  }

  /** A difference is not applicable to an object that lacks a member it removes. */
  lemma DiffNeedsMember(root: Json, a: Json, b: Json, key: string)
    requires root.Obj? && a.Obj? && b.Obj?
    requires key in a.members && key !in b.members && key !in root.members
    ensures ApplyAll(root, Diff("", a, b)).Err?
  {
    var gone := Without(SortedKeys(a.members.Keys), b.members);
    RemovalsFail(root, [], root.members, gone, key);
    ApplyAllFails(root, Removals("", gone), DiffMembers("", a, b, SortedKeys(b.members.Keys)));
  }

  lemma {:induction false} DiffMembersEmpty(path: string, a: Json, b: Json, keys: seq<string>)
    requires a.Obj? && b.Obj? && forall k | k in keys :: k in b.members
    ensures DiffMembers(path, a, b, keys) == [] <==>
            forall k | k in keys :: k in a.members && a.members[k] == b.members[k]
    decreases b, 0, |keys|
  {
    if keys != [] {
      var init, key := keys[..|keys| - 1], keys[|keys| - 1];
      assert key in keys;
      assert forall k :: k in keys <==> k in init || k == key;
      DiffMembersEmpty(path, a, b, init);
      if key in a.members {
        DiffEmpty(PushPointer(path, key), a.members[key], b.members[key]);
      }
    }
  }

  lemma EqualMembers<K(!new), V>(a: map<K, V>, b: map<K, V>, gone: seq<K>, keys: seq<K>)
    requires forall k :: k in gone <==> k in a && k !in b
    requires forall k :: k in keys <==> k in b
    ensures a == b <==> gone == [] && forall k | k in keys :: k in a && a[k] == b[k]
  {
    if gone != [] {
      assert gone[0] in gone;
    }
  }

  /** The difference is empty exactly when the documents are equal. */
  lemma {:induction false} DiffEmpty(path: string, a: Json, b: Json)
    ensures Diff(path, a, b) == [] <==> a == b
    decreases b, 1, 0
  {
    if a.Obj? && b.Obj? {
      var gone := Without(SortedKeys(a.members.Keys), b.members);
      DiffMembersEmpty(path, a, b, SortedKeys(b.members.Keys));
      assert Removals(path, gone) == [] <==> gone == [];
      EqualMembers(a.members, b.members, gone, SortedKeys(b.members.Keys));
    }
  }
}
