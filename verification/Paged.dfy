/** Metadata cut into pages and put together again, and the page delta between
    two stores. */
module Paged {
  import opened Decimal
  import opened Json
  import opened Wrappers

  const PAGED_METADATA_VERSION: nat := 1

  datatype Kind = Header | Disk | Inode | Directory | Xattr | ShardIndex
  datatype Key = Key(kind: Kind, owner: string, page: nat)
  datatype Options = Options(directory: nat, xattrs: nat, blocks: nat)

  datatype DiskRecord = DiskRecord(id: string, rest: Json)
  datatype InodeRecord = InodeRecord(id: nat, core: Json, entries: map<string, nat>, xattrs: map<string, string>,
                                     blocks: seq<Json>)
  datatype Metadata = Metadata(header: Json, txid: nat, disks: map<string, DiskRecord>, inodes: map<nat, InodeRecord>)

  datatype Body =
    | HeaderBody(header: Json, txid: nat)
    | DiskBody(disk: DiskRecord)
    | InodeBody(id: nat, core: Json)
    | DirectoryBody(inode: nat, firstName: Option<string>, entries: seq<(string, nat)>)
    | XattrBody(inode: nat, firstXattr: Option<string>, xattrs: seq<(string, string)>)
    | ShardBody(inode: nat, firstBlock: nat, blocks: seq<Json>)

  /** Digests of page bodies, symbolically. */
  datatype PageHash = Sha256Page(body: Body) | OtherHash(text: string)

  datatype Page = Page(key: Key, txid: nat, hash: PageHash, body: Body)
  datatype Store = Store(version: nat, options: Options, pages: map<Key, Page>)
  datatype Error = Invalid | Corrupted

  predicate ValidOptions(o: Options) { o.directory > 0 && o.xattrs > 0 && o.blocks > 0 }

  function HeaderKey(): Key { Key(Header, "", 0) }
  function DiskKey(id: string): Key { Key(Disk, id, 0) }
  function InodeKey(ino: nat): Key { Key(Inode, Digits(ino), 0) }
  function DirectoryKey(ino: nat, page: nat): Key { Key(Directory, Digits(ino), page) }
  function XattrKey(ino: nat, page: nat): Key { Key(Xattr, Digits(ino), page) }
  function ShardKey(ino: nat, page: nat): Key { Key(ShardIndex, Digits(ino), page) }

  function ExpectedKey(body: Body, page: nat): Key {
    match body
    case HeaderBody(_, _) => HeaderKey()
    case DiskBody(disk) => DiskKey(disk.id)
    case InodeBody(id, _) => InodeKey(id)
    case DirectoryBody(ino, _, _) => DirectoryKey(ino, page)
    case XattrBody(ino, _, _) => XattrKey(ino, page)
    case ShardBody(ino, _, _) => ShardKey(ino, page)
  }

  predicate ValidKey(p: Page) { p.key == ExpectedKey(p.body, p.key.page) }
  predicate HashOk(p: Page) { p.hash == Sha256Page(p.body) }

  function NewPage(key: Key, txid: nat, body: Body): Page { Page(key, txid, Sha256Page(body), body) }

  // ---------------------------------------------------------------------------
  // Chunks
  // ---------------------------------------------------------------------------

  function Chunks<T>(items: seq<T>, size: nat): seq<seq<T>>
    requires size > 0
    decreases |items|
  {
    if items == [] then []
    else if |items| <= size then [items]
    else [items[..size]] + Chunks(items[size..], size)
  }

  /** Pages are full but for the last, and none is empty. */
  lemma {:induction false} ChunkSizes<T>(items: seq<T>, size: nat)
    requires size > 0
    ensures forall i | 0 <= i < |Chunks(items, size)| - 1 :: |Chunks(items, size)[i]| == size
    ensures items != [] ==>
              var chunks := Chunks(items, size);
              chunks != [] && 0 < |chunks[|chunks| - 1]| <= size
    ensures items == [] ==> Chunks(items, size) == []
    decreases |items|
  {
    if |items| > size { ChunkSizes(items[size..], size); }
  }

  function Join<T>(chunks: seq<seq<T>>): seq<T> {
    if chunks == [] then [] else Join(chunks[..|chunks| - 1]) + chunks[|chunks| - 1]
  }

  lemma {:induction false} JoinCons<T>(first: seq<T>, rest: seq<seq<T>>)
    ensures Join([first] + rest) == first + Join(rest)
  {
    var all := [first] + rest;
    if rest == [] {
      assert all[..0] == [] && Join(all[..0]) == [];
    } else {
      JoinCons(first, rest[..|rest| - 1]);
      assert all[..|all| - 1] == [first] + rest[..|rest| - 1];
    }
  }

  lemma {:induction false} JoinChunks<T>(items: seq<T>, size: nat)
    requires size > 0
    ensures Join(Chunks(items, size)) == items
    decreases |items|
  {
    if items == [] {
    } else if |items| <= size {
      JoinCons(items, []);
      assert [items] + [] == [items];
    } else {
      JoinChunks(items[size..], size);
      JoinCons(items[..size], Chunks(items[size..], size));
    }
  }

  lemma {:induction false} ChunkInside<T>(items: seq<T>, size: nat, i: nat, x: T)
    requires size > 0 && i < |Chunks(items, size)| && x in Chunks(items, size)[i]
    ensures x in items
    decreases |items|
  {
    if |items| > size {
      if i == 0 {
        var j :| 0 <= j < size && items[..size][j] == x;
        assert items[j] == x;
      } else {
        ChunkInside(items[size..], size, i - 1, x);
        var j :| 0 <= j < |items[size..]| && items[size..][j] == x;
        assert items[size + j] == x;
      }
    }
  }

  lemma {:induction false} ChunkOf<T>(items: seq<T>, size: nat, x: T) returns (i: nat)
    requires size > 0 && x in items
    ensures i < |Chunks(items, size)| && x in Chunks(items, size)[i]
    decreases |items|
  {
    if |items| <= size {
      i := 0;
    } else if x in items[..size] {
      i := 0;
    } else {
      assert items == items[..size] + items[size..];
      var j := ChunkOf(items[size..], size, x);
      i := j + 1;
    }
  }

  // ---------------------------------------------------------------------------
  // The pages of a metadata document
  // ---------------------------------------------------------------------------

  function Listing<V>(m: map<string, V>): seq<(string, V)> {
    var keys := SortedKeys(m.Keys);
    seq(|keys|, i requires 0 <= i < |keys| => (keys[i], m[keys[i]]))
  }

  lemma ListingMembers<V>(m: map<string, V>, name: string, v: V)
    ensures (name, v) in Listing(m) <==> name in m && m[name] == v
  {
    var keys := SortedKeys(m.Keys);
    if name in m && m[name] == v {
      var i :| 0 <= i < |keys| && keys[i] == name;
      assert Listing(m)[i] == (name, v);
    }
  }

  function DirChunks(inode: InodeRecord, o: Options): seq<seq<(string, nat)>>
    requires ValidOptions(o)
  {
    Chunks(Listing(inode.entries), o.directory)
  }

  function XattrChunks(inode: InodeRecord, o: Options): seq<seq<(string, string)>>
    requires ValidOptions(o)
  {
    Chunks(Listing(inode.xattrs), o.xattrs)
  }

  function ShardChunks(inode: InodeRecord, o: Options): seq<seq<Json>>
    requires ValidOptions(o)
  {
    Chunks(inode.blocks, o.blocks)
  }

  function FirstName<V>(chunk: seq<(string, V)>): Option<string> { if chunk == [] then None else Some(chunk[0].0) }

  function HeaderPage(meta: Metadata): Page { NewPage(HeaderKey(), meta.txid, HeaderBody(meta.header, meta.txid)) }

  function DiskPage(txid: nat, disk: DiskRecord): Page { NewPage(DiskKey(disk.id), txid, DiskBody(disk)) }

  function InodePage(txid: nat,
                     inode: InodeRecord): Page { NewPage(InodeKey(inode.id), txid, InodeBody(inode.id, inode.core)) }

  function DirPage(txid: nat, inode: InodeRecord, o: Options, i: nat): Page
    requires ValidOptions(o) && i < |DirChunks(inode, o)|
  {
    var chunk := DirChunks(inode, o)[i];
    NewPage(DirectoryKey(inode.id, i), txid, DirectoryBody(inode.id, FirstName(chunk), chunk))
  }

  function XattrPage(txid: nat, inode: InodeRecord, o: Options, i: nat): Page
    requires ValidOptions(o) && i < |XattrChunks(inode, o)|
  {
    var chunk := XattrChunks(inode, o)[i];
    NewPage(XattrKey(inode.id, i), txid, XattrBody(inode.id, FirstName(chunk), chunk))
  }

  function ShardPage(txid: nat, inode: InodeRecord, o: Options, i: nat): Page
    requires ValidOptions(o) && i < |ShardChunks(inode, o)|
  {
    NewPage(ShardKey(inode.id, i), txid, ShardBody(inode.id, i * o.blocks, ShardChunks(inode, o)[i]))
  }

  /** Map keys are the ids of what they lead to. */
  ghost predicate KeysAreIds(meta: Metadata) {
    && (forall id | id in meta.disks :: meta.disks[id].id == id)
    && (forall ino | ino in meta.inodes :: meta.inodes[ino].id == ino)
  }

  /** The pages a document has. */
  datatype Ref = TheHeader | OfDisk(id: string) | OfInode(ino: nat) | OfDirectory(ino: nat, i: nat)
                 | OfXattr(ino: nat, i: nat) | OfShards(ino: nat, i: nat)

  ghost predicate Has(meta: Metadata, o: Options, r: Ref)
    requires ValidOptions(o)
  {
    match r
    case TheHeader => true
    case OfDisk(id) => id in meta.disks
    case OfInode(ino) => ino in meta.inodes
    case OfDirectory(ino, i) => ino in meta.inodes && i < |DirChunks(meta.inodes[ino], o)|
    case OfXattr(ino, i) => ino in meta.inodes && i < |XattrChunks(meta.inodes[ino], o)|
    case OfShards(ino, i) => ino in meta.inodes && i < |ShardChunks(meta.inodes[ino], o)|
  }

  ghost function PageOf(meta: Metadata, o: Options, r: Ref): Page
    requires ValidOptions(o) && Has(meta, o, r)
  {
    match r
    case TheHeader => HeaderPage(meta)
    case OfDisk(id) => DiskPage(meta.txid, meta.disks[id])
    case OfInode(ino) => InodePage(meta.txid, meta.inodes[ino])
    case OfDirectory(ino, i) => DirPage(meta.txid, meta.inodes[ino], o, i)
    case OfXattr(ino, i) => XattrPage(meta.txid, meta.inodes[ino], o, i)
    case OfShards(ino, i) => ShardPage(meta.txid, meta.inodes[ino], o, i)
  }

  ghost function RefKey(r: Ref): Key {
    match r
    case TheHeader => HeaderKey()
    case OfDisk(id) => DiskKey(id)
    case OfInode(ino) => InodeKey(ino)
    case OfDirectory(ino, i) => DirectoryKey(ino, i)
    case OfXattr(ino, i) => XattrKey(ino, i)
    case OfShards(ino, i) => ShardKey(ino, i)
  }

  lemma RefKeyInjective(r: Ref, q: Ref)
    requires RefKey(r) == RefKey(q)
    ensures r == q
  {
    if !r.TheHeader? && !r.OfDisk? && !q.TheHeader? && !q.OfDisk? { DigitsInjective(r.ino, q.ino); }
  }

  /** The store holds exactly the pages of the document. */
  ghost predicate Holds(pages: map<Key, Page>, meta: Metadata, o: Options)
    requires ValidOptions(o)
  {
    && (forall r: Ref | Has(meta, o, r) :: RefKey(r) in pages && pages[RefKey(r)] == PageOf(meta, o, r))
    && (forall k | k in pages :: exists r: Ref :: Has(meta, o, r) && RefKey(r) == k)
  }

  // ---------------------------------------------------------------------------
  // Cutting a document into pages
  // ---------------------------------------------------------------------------

  ghost predicate HoldsRefs(pages: map<Key, Page>, meta: Metadata, o: Options, refs: set<Ref>)
    requires ValidOptions(o)
  {
    && (forall r | r in refs :: Has(meta, o, r) && RefKey(r) in pages && pages[RefKey(r)] == PageOf(meta, o, r))
    && (forall k | k in pages :: exists r :: r in refs && RefKey(r) == k)
  }

  lemma PutRef(pages: map<Key, Page>, meta: Metadata, o: Options, refs: set<Ref>, r: Ref)
    requires ValidOptions(o) && HoldsRefs(pages, meta, o, refs) && Has(meta, o, r)
    ensures HoldsRefs(pages[RefKey(r) := PageOf(meta, o, r)], meta, o, refs + {r})
  {
    hide PageOf, Has, RefKey;
    var pages' := pages[RefKey(r) := PageOf(meta, o, r)];
    forall q | q in refs + {r}
      ensures Has(meta, o, q) && RefKey(q) in pages' && pages'[RefKey(q)] == PageOf(meta, o, q)
    {
      if RefKey(q) == RefKey(r) { RefKeyInjective(q, r); }
    }
    forall k | k in pages' ensures exists q :: q in refs + {r} && RefKey(q) == k {
      if k == RefKey(r) {
        assert r in refs + {r};
      } else {
        var q :| q in refs && RefKey(q) == k;
        assert q in refs + {r};
      }
    }
  }

  /** What the chunk loops of one inode add. */
  ghost predicate Progress(pages: map<Key, Page>, meta: Metadata, o: Options, refs: set<Ref>)
    requires ValidOptions(o)
  {
    KeysAreIds(meta) ==> HoldsRefs(pages, meta, o, refs)
  }

  method PutDirectoryPages(before: map<Key, Page>, meta: Metadata, ino: nat, o: Options, ghost done: set<Ref>)
    returns (pages: map<Key, Page>, ghost refs: set<Ref>)
    requires ValidOptions(o) && ino in meta.inodes && Progress(before, meta, o, done)
    ensures Progress(pages, meta, o, refs) && done <= refs
    ensures forall i: nat | i < |DirChunks(meta.inodes[ino], o)| :: OfDirectory(ino, i) in refs
    ensures forall r | r in refs && r !in done ::
              r.OfDirectory? && r.ino == ino && r.i < |DirChunks(meta.inodes[ino], o)|
  {
    hide HoldsRefs, DirChunks;
    pages, refs := before, done;
    var chunks := DirChunks(meta.inodes[ino], o);
    for i := 0 to |chunks|
      invariant Progress(pages, meta, o, refs) && done <= refs
      invariant forall j: nat | j < i :: OfDirectory(ino, j) in refs
      invariant forall r | r in refs && r !in done :: r.OfDirectory? && r.ino == ino && r.i < i
    {
      var page := DirPage(meta.txid, meta.inodes[ino], o, i);
      if KeysAreIds(meta) { PutRef(pages, meta, o, refs, OfDirectory(ino, i)); }
      pages, refs := pages[page.key := page], refs + {OfDirectory(ino, i)};
    }
  }

  method PutXattrPages(before: map<Key, Page>, meta: Metadata, ino: nat, o: Options, ghost done: set<Ref>)
    returns (pages: map<Key, Page>, ghost refs: set<Ref>)
    requires ValidOptions(o) && ino in meta.inodes && Progress(before, meta, o, done)
    ensures Progress(pages, meta, o, refs) && done <= refs
    ensures forall i: nat | i < |XattrChunks(meta.inodes[ino], o)| :: OfXattr(ino, i) in refs
    ensures forall r | r in refs && r !in done :: r.OfXattr? && r.ino == ino && r.i < |XattrChunks(meta.inodes[ino], o)|
  {
    hide HoldsRefs, XattrChunks;
    pages, refs := before, done;
    var chunks := XattrChunks(meta.inodes[ino], o);
    for i := 0 to |chunks|
      invariant Progress(pages, meta, o, refs) && done <= refs
      invariant forall j: nat | j < i :: OfXattr(ino, j) in refs
      invariant forall r | r in refs && r !in done :: r.OfXattr? && r.ino == ino && r.i < i
    {
      var page := XattrPage(meta.txid, meta.inodes[ino], o, i);
      if KeysAreIds(meta) { PutRef(pages, meta, o, refs, OfXattr(ino, i)); }
      pages, refs := pages[page.key := page], refs + {OfXattr(ino, i)};
    }
  }

  method PutShardPages(before: map<Key, Page>, meta: Metadata, ino: nat, o: Options, ghost done: set<Ref>)
    returns (pages: map<Key, Page>, ghost refs: set<Ref>)
    requires ValidOptions(o) && ino in meta.inodes && Progress(before, meta, o, done)
    ensures Progress(pages, meta, o, refs) && done <= refs
    ensures forall i: nat | i < |ShardChunks(meta.inodes[ino], o)| :: OfShards(ino, i) in refs
    ensures forall r | r in refs && r !in done ::
              r.OfShards? && r.ino == ino && r.i < |ShardChunks(meta.inodes[ino], o)|
  {
    hide HoldsRefs, ShardChunks;
    pages, refs := before, done;
    var chunks := ShardChunks(meta.inodes[ino], o);
    for i := 0 to |chunks|
      invariant Progress(pages, meta, o, refs) && done <= refs
      invariant forall j: nat | j < i :: OfShards(ino, j) in refs
      invariant forall r | r in refs && r !in done :: r.OfShards? && r.ino == ino && r.i < i
    {
      var page := ShardPage(meta.txid, meta.inodes[ino], o, i);
      if KeysAreIds(meta) { PutRef(pages, meta, o, refs, OfShards(ino, i)); }
      pages, refs := pages[page.key := page], refs + {OfShards(ino, i)};
    }
  }

  ghost predicate InodeDone(meta: Metadata, o: Options, refs: set<Ref>, ino: nat)
    requires ValidOptions(o) && ino in meta.inodes
  {
    && OfInode(ino) in refs
    && (forall i: nat | i < |DirChunks(meta.inodes[ino], o)| :: OfDirectory(ino, i) in refs)
    && (forall i: nat | i < |XattrChunks(meta.inodes[ino], o)| :: OfXattr(ino, i) in refs)
    && (forall i: nat | i < |ShardChunks(meta.inodes[ino], o)| :: OfShards(ino, i) in refs)
  }

  /** `order` is the iteration order of the inode table. With keys that are ids
      the store holds exactly the pages of the document. */
  method FromMetadata(meta: Metadata, o: Options, order: seq<nat>) returns (r: Result<Store, Error>)
    requires forall ino :: ino in order <==> ino in meta.inodes
    ensures r.Ok? <==> ValidOptions(o)
    ensures r.Ok? ==> r.value.version == PAGED_METADATA_VERSION && r.value.options == o
    ensures r.Ok? && KeysAreIds(meta) ==> Holds(r.value.pages, meta, o)
  {
    hide HoldsRefs, DirChunks, XattrChunks, ShardChunks, Holds;
    if !ValidOptions(o) { return Err(Invalid); }
    var pages := map[HeaderKey() := HeaderPage(meta)];
    ghost var refs := {TheHeader};
    JustHeader(meta, o);
    var ids := SortedKeys(meta.disks.Keys);
    for d := 0 to |ids|
      invariant Progress(pages, meta, o, refs) && TheHeader in refs
      invariant forall j | 0 <= j < d :: OfDisk(ids[j]) in refs
    {
      assert ids[d] in ids;
      var page := DiskPage(meta.txid, meta.disks[ids[d]]);
      if KeysAreIds(meta) { PutRef(pages, meta, o, refs, OfDisk(ids[d])); }
      pages, refs := pages[page.key := page], refs + {OfDisk(ids[d])};
    }
    ghost var disksDone := refs;
    for n := 0 to |order|
      invariant Progress(pages, meta, o, refs) && disksDone <= refs
      invariant forall j | 0 <= j < n :: order[j] in meta.inodes && InodeDone(meta, o, refs, order[j])
    {
      var ino := order[n];
      assert ino in order;
      ghost var before := refs;
      var page := InodePage(meta.txid, meta.inodes[ino]);
      if KeysAreIds(meta) { PutRef(pages, meta, o, refs, OfInode(ino)); }
      pages, refs := pages[page.key := page], refs + {OfInode(ino)};
      pages, refs := PutDirectoryPages(pages, meta, ino, o, refs);
      pages, refs := PutXattrPages(pages, meta, ino, o, refs);
      pages, refs := PutShardPages(pages, meta, ino, o, refs);
      forall j | 0 <= j < n ensures InodeDone(meta, o, refs, order[j]) { MoreDone(meta, o, before, refs, order[j]); }
    }
    if KeysAreIds(meta) { AllDone(pages, meta, o, refs, ids, order); }
    r := Ok(Store(PAGED_METADATA_VERSION, o, pages));
  }

  lemma JustHeader(meta: Metadata, o: Options)
    requires ValidOptions(o)
    ensures HoldsRefs(map[HeaderKey() := HeaderPage(meta)], meta, o, {TheHeader})
  {
  }

  lemma MoreDone(meta: Metadata, o: Options, refs: set<Ref>, refs': set<Ref>, ino: nat)
    requires ValidOptions(o) && ino in meta.inodes && InodeDone(meta, o, refs, ino) && refs <= refs'
    ensures InodeDone(meta, o, refs', ino)
  {
  }

  lemma AllDone(pages: map<Key, Page>, meta: Metadata, o: Options, refs: set<Ref>, ids: seq<string>, order: seq<nat>)
    requires ValidOptions(o) && HoldsRefs(pages, meta, o, refs) && TheHeader in refs
    requires forall id | id in meta.disks :: id in ids
    requires forall j | 0 <= j < |ids| :: OfDisk(ids[j]) in refs
    requires forall ino | ino in meta.inodes :: ino in order
    requires forall j | 0 <= j < |order| :: order[j] in meta.inodes && InodeDone(meta, o, refs, order[j])
    ensures Holds(pages, meta, o)
  {
    hide PageOf, RefKey, DirChunks, XattrChunks, ShardChunks;
    forall r: Ref | Has(meta, o, r) ensures r in refs {
      match r
      case TheHeader =>
      case OfDisk(id) =>
        var j :| 0 <= j < |ids| && ids[j] == id;
      case _ =>
        var j :| 0 <= j < |order| && order[j] == r.ino;
        assert InodeDone(meta, o, refs, order[j]);
    }
  }

  // ---------------------------------------------------------------------------
  // Putting pages together
  // ---------------------------------------------------------------------------

  function Rank(k: Kind): nat {
    match k
    case Header => 0
    case Disk => 1
    case Inode => 2
    case Directory => 3
    case Xattr => 4
    case ShardIndex => 5
  }

  /** The order of page keys: kind, owner text, page number. */
  predicate Before(a: Key, b: Key) {
    Rank(a.kind) < Rank(b.kind)
    || (a.kind == b.kind && ((a.owner != b.owner && KeyLeq(a.owner, b.owner))
                             || (a.owner == b.owner && a.page < b.page)))
  }

  /** The iteration order of the page table. */
  ghost predicate IterationOrder(order: seq<Key>, pages: map<Key, Page>) {
    && (forall k :: k in order <==> k in pages)
    && (forall i, j | 0 <= i < j < |order| :: Before(order[i], order[j]))
  }

  datatype Parts = Parts(disks: map<string, DiskRecord>, cores: map<nat, Json>, entries: map<nat, map<string, nat>>,
                         xattrs: map<nat, map<string, string>>, blocks: map<nat, seq<Json>>)

  function Lookup<K, V>(m: map<K, V>, k: K, default: V): V { if k in m then m[k] else default }

  function Inserted<V>(m: map<string, V>, pairs: seq<(string, V)>): map<string, V> {
    if pairs == [] then m
    else Inserted(m, pairs[..|pairs| - 1])[pairs[|pairs| - 1].0 := pairs[|pairs| - 1].1]
  }

  function Absorb(parts: Parts, body: Body): Parts {
    match body
    case HeaderBody(_, _) => parts
    case DiskBody(disk) => parts.(disks := parts.disks[disk.id := disk])
    case InodeBody(id, core) => parts.(cores := parts.cores[id := core])
    case DirectoryBody(ino, _, entries) =>
      parts.(entries := parts.entries[ino := Inserted(Lookup(parts.entries, ino, map[]), entries)])
    case XattrBody(ino, _, xattrs) =>
      parts.(xattrs := parts.xattrs[ino := Inserted(Lookup(parts.xattrs, ino, map[]), xattrs)])
    case ShardBody(ino, _, blocks) =>
      parts.(blocks := parts.blocks[ino := Lookup(parts.blocks, ino, []) + blocks])
  }

  const NO_PARTS := Parts(map[], map[], map[], map[], map[])

  /** The parts after the pages listed; none once a key does not fit or repeats. */
  function Collected(pages: map<Key, Page>, order: seq<Key>): Option<Parts>
    requires forall k | k in order :: k in pages
    decreases |order|
  {
    if order == [] then Some(NO_PARTS)
    else
      var n := |order| - 1;
      assert forall k | k in order[..n] :: k in order;
      match Collected(pages, order[..n])
      case None => None
      case Some(parts) =>
        var page := pages[order[n]];
        if !ValidKey(page) || Repeats(pages, order, n) then None else Some(Absorb(parts, page.body))
  }

  /** The page at position n has a key seen before. */
  predicate Repeats(pages: map<Key, Page>, order: seq<Key>, n: nat)
    requires n < |order| && forall k | k in order :: k in pages
  {
    exists i | 0 <= i < n :: pages[order[i]].key == pages[order[n]].key
  }

  function Rebuilt(header: Body, parts: Parts): Result<Metadata, Error>
    requires header.HeaderBody?
  {
    if !(parts.entries.Keys <= parts.cores.Keys && parts.xattrs.Keys <= parts.cores.Keys
         && parts.blocks.Keys <= parts.cores.Keys)
    then Err(Corrupted)
    else Ok(Metadata(header.header, header.txid, parts.disks,
                     map ino | ino in parts.cores ::
                       InodeRecord(ino, parts.cores[ino], Lookup(parts.entries, ino, map[]),
                                   Lookup(parts.xattrs, ino, map[]),
                                   Lookup(parts.blocks, ino, []))))
  }

  function ToMetadata(store: Store, order: seq<Key>): Result<Metadata, Error>
    requires forall k :: k in order <==> k in store.pages
  {
    if store.version != PAGED_METADATA_VERSION || !ValidOptions(store.options) then Err(Invalid)
    else if exists k | k in store.pages :: !HashOk(store.pages[k]) then Err(Corrupted)
    else if HeaderKey() !in store.pages || !store.pages[HeaderKey()].body.HeaderBody? then Err(Corrupted)
    else match Collected(store.pages, order)
      case None => Err(Corrupted)
      case Some(parts) => Rebuilt(store.pages[HeaderKey()].body, parts)
  }

  /** The page loop of decoding, with the set of keys seen. */
  method CollectPages(pages: map<Key, Page>, order: seq<Key>) returns (r: Option<Parts>)
    requires forall k | k in order :: k in pages
    ensures r == Collected(pages, order)
  {
    hide Absorb, ValidKey;
    var parts, seen: set<Key> := NO_PARTS, {};
    for i := 0 to |order|
      invariant forall k | k in order[..i] :: k in pages
      invariant Collected(pages, order[..i]) == Some(parts)
      invariant forall k :: k in seen <==> exists j | 0 <= j < i :: pages[order[j]].key == k
    {
      assert order[..i + 1][..i] == order[..i] && order[i] in order;
      var page := pages[order[i]];
      assert Repeats(pages, order[..i + 1], i) <==> page.key in seen;
      if !ValidKey(page) || page.key in seen {
        NotCollected(pages, order, i + 1);
        return None;
      }
      seen := seen + {page.key};
      parts := Absorb(parts, page.body);
    }
    assert order[..|order|] == order;
    r := Some(parts);
  }

  lemma {:induction false} NotCollected(pages: map<Key, Page>, order: seq<Key>, n: nat)
    requires n <= |order| && (forall k | k in order :: k in pages) && (forall k | k in order[..n] :: k in pages)
    requires Collected(pages, order[..n]).None?
    ensures Collected(pages, order).None?
    decreases |order|
  {
    hide Absorb;
    if n < |order| {
      var init := order[..|order| - 1];
      assert forall k | k in init :: k in order;
      assert init[..n] == order[..n];
      NotCollected(pages, init, n);
    } else {
      assert order[..n] == order;
    }
  }

  // ---------------------------------------------------------------------------
  // Round trip
  // ---------------------------------------------------------------------------

  lemma PageGood(meta: Metadata, o: Options, r: Ref)
    requires ValidOptions(o) && KeysAreIds(meta) && Has(meta, o, r)
    ensures var p := PageOf(meta, o, r); p.key == RefKey(r) && HashOk(p) && ValidKey(p)
  {
    hide DirChunks, XattrChunks, ShardChunks;
  }

  /** Every page stands under its own key, with its hash and a fitting body. */
  ghost predicate SoundPages(pages: map<Key, Page>) {
    forall k | k in pages :: pages[k].key == k && HashOk(pages[k]) && ValidKey(pages[k])
  }

  lemma HeldSound(pages: map<Key, Page>, meta: Metadata, o: Options)
    requires ValidOptions(o) && KeysAreIds(meta) && Holds(pages, meta, o)
    ensures SoundPages(pages)
  {
    hide PageOf, RefKey, Has, KeysAreIds, HashOk, ValidKey;
    forall k | k in pages ensures pages[k].key == k && HashOk(pages[k]) && ValidKey(pages[k]) {
      var r: Ref :| Has(meta, o, r) && RefKey(r) == k;
      PageGood(meta, o, r);
    }
  }

  function AllParts(pages: map<Key, Page>, order: seq<Key>): Parts
    requires forall k | k in order :: k in pages
    decreases |order|
  {
    if order == [] then NO_PARTS
    else
      var n := |order| - 1;
      assert forall k | k in order[..n] :: k in order;
      Absorb(AllParts(pages, order[..n]), pages[order[n]].body)
  }

  ghost predicate Ascending(order: seq<Key>) {
    forall i, j | 0 <= i < j < |order| :: Before(order[i], order[j])
  }

  lemma {:induction false} SoundCollects(pages: map<Key, Page>, order: seq<Key>)
    requires SoundPages(pages) && Ascending(order) && forall k | k in order :: k in pages
    ensures Collected(pages, order) == Some(AllParts(pages, order))
    decreases |order|
  {
    hide Absorb, ValidKey, HashOk;
    if order != [] {
      var n := |order| - 1;
      var init := order[..n];
      assert forall k | k in init :: k in order;
      SoundCollects(pages, init);
      assert order[n] in order;
      forall i | 0 <= i < n ensures pages[order[i]].key != pages[order[n]].key {
        assert Before(order[i], order[n]) && order[i] in order;
      }
    }
  }

  /** The pages under `order` are those of the document. */
  ghost predicate Drawn(pages: map<Key, Page>, meta: Metadata, o: Options, order: seq<Key>)
    requires ValidOptions(o)
  {
    && KeysAreIds(meta) && Holds(pages, meta, o) && Ascending(order)
    && forall k | k in order :: k in pages
  }

  lemma DrawnPrefix(pages: map<Key, Page>, meta: Metadata, o: Options, order: seq<Key>)
    requires ValidOptions(o) && Drawn(pages, meta, o, order) && order != []
    ensures Drawn(pages, meta, o, order[..|order| - 1])
  {
    var init := order[..|order| - 1];
    forall k | k in init ensures k in pages { assert k in order; }
  }

  /** What a page of the document adds. */
  ghost function Grown(parts: Parts, meta: Metadata, o: Options, r: Ref): Parts
    requires ValidOptions(o) && Has(meta, o, r)
  {
    match r
    case TheHeader => parts
    case OfDisk(id) => parts.(disks := parts.disks[id := meta.disks[id]])
    case OfInode(ino) => parts.(cores := parts.cores[ino := meta.inodes[ino].core])
    case OfDirectory(ino, i) =>
      var entries := Inserted(Lookup(parts.entries, ino, map[]), DirChunks(meta.inodes[ino], o)[i]);
      parts.(entries := parts.entries[ino := entries])
    case OfXattr(ino, i) =>
      var xattrs := Inserted(Lookup(parts.xattrs, ino, map[]), XattrChunks(meta.inodes[ino], o)[i]);
      parts.(xattrs := parts.xattrs[ino := xattrs])
    case OfShards(ino, i) =>
      parts.(blocks := parts.blocks[ino := Lookup(parts.blocks, ino, []) + ShardChunks(meta.inodes[ino], o)[i]])
  }

  lemma AbsorbGrows(parts: Parts, meta: Metadata, o: Options, r: Ref)
    requires ValidOptions(o) && KeysAreIds(meta) && Has(meta, o, r)
    ensures Absorb(parts, PageOf(meta, o, r).body) == Grown(parts, meta, o, r)
  {
    hide DirChunks, XattrChunks, ShardChunks, Inserted, Lookup;
  }

  /** The last page listed, as a part of the document. */
  lemma LastPage(pages: map<Key, Page>, meta: Metadata, o: Options, order: seq<Key>) returns (r: Ref)
    requires ValidOptions(o) && Drawn(pages, meta, o, order) && order != []
    ensures Drawn(pages, meta, o, order[..|order| - 1])
    ensures Has(meta, o, r) && order == order[..|order| - 1] + [RefKey(r)]
    ensures (forall k | k in order :: k in pages) && (forall k | k in order[..|order| - 1] :: k in pages)
    ensures AllParts(pages, order) == Grown(AllParts(pages, order[..|order| - 1]), meta, o, r)
  {
    hide Has, PageOf, Absorb, Grown, RefKey, Before;
    DrawnPrefix(pages, meta, o, order);
    var k := order[|order| - 1];
    assert k in order;
    assert forall j | j in order[..|order| - 1] :: j in order;
    r :| Has(meta, o, r) && RefKey(r) == k;
    AbsorbGrows(AllParts(pages, order[..|order| - 1]), meta, o, r);
  }

  lemma NoParts(pages: map<Key, Page>)
    ensures AllParts(pages, []) == NO_PARTS
  {
  }

  lemma {:induction false} DisksRebuilt(pages: map<Key, Page>, meta: Metadata, o: Options, order: seq<Key>, id: string)
    requires ValidOptions(o) && Drawn(pages, meta, o, order)
    ensures var disks := AllParts(pages, order).disks;
            && (id in disks <==> id in meta.disks && DiskKey(id) in order)
            && (id in disks ==> disks[id] == meta.disks[id])
    decreases |order|
  {
    hide AllParts, PageOf, Chunks, Listing, DirChunks, XattrChunks, ShardChunks, Drawn, Inserted, Before;
    if order == [] {
      NoParts(pages);
    } else {
      var init := order[..|order| - 1];
      var r := LastPage(pages, meta, o, order);
      DisksRebuilt(pages, meta, o, init, id);
    }
  }

  lemma KeysOf(meta: Metadata, pages: map<Key, Page>, o: Options, order: seq<Key>)
    requires ValidOptions(o) && Drawn(pages, meta, o, order)
    ensures KeysAreIds(meta) && forall k | k in order :: k in pages
  {
  }

  lemma {:induction false} CoresRebuilt(pages: map<Key, Page>, meta: Metadata, o: Options, order: seq<Key>, ino: nat)
    requires ValidOptions(o) && Drawn(pages, meta, o, order)
    ensures var cores := AllParts(pages, order).cores;
            && (ino in cores <==> ino in meta.inodes && InodeKey(ino) in order)
            && (ino in cores ==> cores[ino] == meta.inodes[ino].core)
    decreases |order|
  {
    hide AllParts, PageOf, Chunks, Listing, DirChunks, XattrChunks, ShardChunks, Drawn, Inserted, Before;
    if order == [] {
      NoParts(pages);
    } else {
      var init := order[..|order| - 1];
      var r := LastPage(pages, meta, o, order);
      CoresRebuilt(pages, meta, o, init, ino);
      if RefKey(r) == InodeKey(ino) { RefKeyInjective(r, OfInode(ino)); }
    }
  }

  // Directory entries and extended attributes: parts of the maps, growing.

  ghost predicate Sub<V>(m: map<string, V>, whole: map<string, V>) {
    forall k | k in m :: k in whole && m[k] == whole[k]
  }

  lemma {:induction false} InsertedSub<V>(m: map<string, V>, whole: map<string, V>, pairs: seq<(string, V)>)
    requires Sub(m, whole) && forall p | p in pairs :: p.0 in whole && whole[p.0] == p.1
    ensures Sub(Inserted(m, pairs), whole)
    ensures forall k | k in m :: k in Inserted(m, pairs)
    ensures forall p | p in pairs :: p.0 in Inserted(m, pairs)
  {
    if pairs != [] {
      var init, last := pairs[..|pairs| - 1], pairs[|pairs| - 1];
      assert pairs == init + [last];
      assert last in pairs;
      InsertedSub(m, whole, init);
    }
  }

  lemma ChunkPairs<V>(m: map<string, V>, size: nat, i: nat)
    requires size > 0 && i < |Chunks(Listing(m), size)|
    ensures forall p | p in Chunks(Listing(m), size)[i] :: p.0 in m && m[p.0] == p.1
  {
    hide Listing, Chunks;
    forall p | p in Chunks(Listing(m), size)[i] ensures p.0 in m && m[p.0] == p.1 {
      ChunkInside(Listing(m), size, i, p);
      ListingMembers(m, p.0, p.1);
    }
  }

  lemma {:induction false} EntriesRebuilt(pages: map<Key, Page>, meta: Metadata, o: Options, order: seq<Key>, ino: nat)
    requires ValidOptions(o) && Drawn(pages, meta, o, order)
    ensures var entries := AllParts(pages, order).entries;
            && (ino in entries ==> ino in meta.inodes && Sub(entries[ino], meta.inodes[ino].entries))
            && (forall i: nat | Has(meta, o, OfDirectory(ino, i)) && DirectoryKey(ino, i) in order ::
                  ino in entries && forall p | p in DirChunks(meta.inodes[ino], o)[i] :: p.0 in entries[ino])
    decreases |order|
  {
    hide AllParts, PageOf, Chunks, Listing, XattrChunks, ShardChunks, Drawn, Inserted, Sub, Before;
    if order == [] {
      NoParts(pages);
    } else {
      var init := order[..|order| - 1];
      var r := LastPage(pages, meta, o, order);
      EntriesRebuilt(pages, meta, o, init, ino);
      if r.OfDirectory? && r.ino == ino {
        var whole := meta.inodes[ino].entries;
        var sofar := Lookup(AllParts(pages, init).entries, ino, map[]);
        EmptySub(whole);
        ChunkPairs(whole, o.directory, r.i);
        InsertedSub(sofar, whole, DirChunks(meta.inodes[ino], o)[r.i]);
      }
      forall i: nat | Has(meta, o, OfDirectory(ino, i)) && DirectoryKey(ino, i) == RefKey(r)
        ensures r == OfDirectory(ino, i)
      {
        RefKeyInjective(r, OfDirectory(ino, i));
      }
    }
  }

  lemma EmptySub<V>(whole: map<string, V>)
    ensures Sub(map[], whole)
  {
  }

  lemma {:induction false} XattrsRebuilt(pages: map<Key, Page>, meta: Metadata, o: Options, order: seq<Key>, ino: nat)
    requires ValidOptions(o) && Drawn(pages, meta, o, order)
    ensures var xattrs := AllParts(pages, order).xattrs;
            && (ino in xattrs ==> ino in meta.inodes && Sub(xattrs[ino], meta.inodes[ino].xattrs))
            && (forall i: nat | Has(meta, o, OfXattr(ino, i)) && XattrKey(ino, i) in order ::
                  ino in xattrs && forall p | p in XattrChunks(meta.inodes[ino], o)[i] :: p.0 in xattrs[ino])
    decreases |order|
  {
    hide AllParts, PageOf, Chunks, Listing, DirChunks, ShardChunks, Drawn, Inserted, Sub, Before;
    if order == [] {
      NoParts(pages);
    } else {
      var init := order[..|order| - 1];
      var r := LastPage(pages, meta, o, order);
      XattrsRebuilt(pages, meta, o, init, ino);
      if r.OfXattr? && r.ino == ino {
        var whole := meta.inodes[ino].xattrs;
        var sofar := Lookup(AllParts(pages, init).xattrs, ino, map[]);
        EmptySub(whole);
        ChunkPairs(whole, o.xattrs, r.i);
        InsertedSub(sofar, whole, XattrChunks(meta.inodes[ino], o)[r.i]);
      }
      forall i: nat | Has(meta, o, OfXattr(ino, i)) && XattrKey(ino, i) == RefKey(r) ensures r == OfXattr(ino, i) {
        RefKeyInjective(r, OfXattr(ino, i));
      }
    }
  }

  // File blocks: in page order.

  /** How many shard-index pages of the inode are listed. */
  ghost function Seen(order: seq<Key>, ino: nat): nat {
    if order == [] then 0
    else Seen(order[..|order| - 1], ino) + if IsShardKey(order[|order| - 1], ino) then 1 else 0
  }

  ghost predicate IsShardKey(k: Key, ino: nat) { k == ShardKey(ino, k.page) }

  /** All pages behind a listed one are listed too. */
  ghost predicate DownClosed(order: seq<Key>, ino: nat) {
    forall p: nat, q: nat | q < p && ShardKey(ino, p) in order :: ShardKey(ino, q) in order
  }

  /** In key order the pages of an inode come one by one from the first. */
  lemma {:induction false} SeenPages(order: seq<Key>, ino: nat, p: nat)
    requires Ascending(order) && DownClosed(order, ino)
    ensures ShardKey(ino, p) in order <==> p < Seen(order, ino)
    ensures order != [] && IsShardKey(order[|order| - 1], ino) ==> order[|order| - 1].page + 1 == Seen(order, ino)
    decreases |order|, p
  {
    hide ShardKey;
    if order != [] {
      var init, k := order[..|order| - 1], order[|order| - 1];
      assert order == init + [k];
      ShardKeys(ino);
      DownClosedPrefix(order, ino);
      SeenPages(init, ino, p);
      if IsShardKey(k, ino) {
        SeenPages(init, ino, k.page);
        NotListed(order, k);
        if k.page > 0 {
          SeenPages(init, ino, k.page - 1);
          assert ShardKey(ino, k.page - 1) in order;
        }
      }
    }
  }

  lemma ShardKeys(ino: nat)
    ensures forall p: nat, q: nat :: ShardKey(ino, p) == ShardKey(ino, q) ==> p == q
    ensures forall k: Key, p: nat :: k == ShardKey(ino, p) ==> IsShardKey(k, ino) && k.page == p
  {
  }

  lemma NotListed(order: seq<Key>, k: Key)
    requires Ascending(order) && order != [] && order[|order| - 1] == k
    ensures k !in order[..|order| - 1]
  {
    var n := |order| - 1;
    forall i | 0 <= i < n ensures order[i] != k { assert Before(order[i], order[n]); }
  }

  lemma DownClosedPrefix(order: seq<Key>, ino: nat)
    requires Ascending(order) && DownClosed(order, ino) && order != []
    ensures Ascending(order[..|order| - 1]) && DownClosed(order[..|order| - 1], ino)
  {
    var n := |order| - 1;
    var init := order[..n];
    forall p: nat, q: nat | q < p && ShardKey(ino, p) in init ensures ShardKey(ino, q) in init {
      var i :| 0 <= i < n && order[i] == ShardKey(ino, p);
      assert order[i] in order;
      var j :| 0 <= j < |order| && order[j] == ShardKey(ino, q);
      assert init[j] == order[j];
    }
  }

  lemma JoinNext<T>(chunks: seq<seq<T>>, i: nat)
    requires i < |chunks|
    ensures Join(chunks[..i + 1]) == Join(chunks[..i]) + chunks[i]
  {
    assert chunks[..i + 1][..i] == chunks[..i];
  }

  lemma NoneSeen<T>(chunks: seq<seq<T>>)
    ensures Join(chunks[..0]) == []
  {
  }

  lemma {:induction false} BlocksRebuilt(pages: map<Key, Page>, meta: Metadata, o: Options, order: seq<Key>, ino: nat)
    requires ValidOptions(o) && Drawn(pages, meta, o, order) && DownClosed(order, ino)
    ensures var blocks := AllParts(pages, order).blocks;
            && (ino in blocks ==> ino in meta.inodes)
            && (ino in meta.inodes ==> Seen(order, ino) <= |ShardChunks(meta.inodes[ino], o)|
                                       && Lookup(blocks, ino, []) ==
                                          Join(ShardChunks(meta.inodes[ino], o)[..Seen(order, ino)]))
    decreases |order|
  {
    hide AllParts, PageOf, Chunks, Listing, DirChunks, XattrChunks, ShardChunks, Drawn, Inserted, Join, DownClosed,
         Ascending, Before, RefKey, IsShardKey;
    if order == [] {
      NoParts(pages);
      if ino in meta.inodes { NoneSeen(ShardChunks(meta.inodes[ino], o)); }
    } else {
      var init := order[..|order| - 1];
      var r := LastPage(pages, meta, o, order);
      DrawnAscends(pages, meta, o, order);
      DownClosedPrefix(order, ino);
      BlocksRebuilt(pages, meta, o, init, ino);
      ShardRef(r, ino);
      if IsShardKey(RefKey(r), ino) {
        SeenPages(order, ino, r.i);
        JoinNext(ShardChunks(meta.inodes[ino], o), r.i);
      }
    }
  }

  lemma DrawnAscends(pages: map<Key, Page>, meta: Metadata, o: Options, order: seq<Key>)
    requires ValidOptions(o) && Drawn(pages, meta, o, order)
    ensures Ascending(order)
  {
  }

  lemma ShardRef(r: Ref, ino: nat)
    ensures IsShardKey(RefKey(r), ino) <==> r.OfShards? && r.ino == ino
    ensures r.OfShards? ==> RefKey(r).page == r.i
  {
    if IsShardKey(RefKey(r), ino) { RefKeyInjective(r, OfShards(ino, RefKey(r).page)); }
  }

  lemma MapsEqual<V>(m: map<string, V>, whole: map<string, V>)
    requires Sub(m, whole) && forall k | k in whole :: k in m
    ensures m == whole
  {
  }

  lemma EntriesWhole(pages: map<Key, Page>, meta: Metadata, o: Options, order: seq<Key>, ino: nat)
    requires ValidOptions(o) && Drawn(pages, meta, o, order) && ino in meta.inodes
    requires forall i: nat | Has(meta, o, OfDirectory(ino, i)) :: DirectoryKey(ino, i) in order
    ensures Lookup(AllParts(pages, order).entries, ino, map[]) == meta.inodes[ino].entries
  {
    hide Chunks, Listing, AllParts, Sub, Drawn, Holds;
    KeysOf(meta, pages, o, order);
    EntriesRebuilt(pages, meta, o, order, ino);
    var whole := meta.inodes[ino].entries;
    EmptySub(whole);
    var found := Lookup(AllParts(pages, order).entries, ino, map[]);
    forall name | name in whole ensures name in found {
      ListingMembers(whole, name, whole[name]);
      var i := ChunkOf(Listing(whole), o.directory, (name, whole[name]));
      assert Has(meta, o, OfDirectory(ino, i));
    }
    MapsEqual(found, whole);
  }

  lemma XattrsWhole(pages: map<Key, Page>, meta: Metadata, o: Options, order: seq<Key>, ino: nat)
    requires ValidOptions(o) && Drawn(pages, meta, o, order) && ino in meta.inodes
    requires forall i: nat | Has(meta, o, OfXattr(ino, i)) :: XattrKey(ino, i) in order
    ensures Lookup(AllParts(pages, order).xattrs, ino, map[]) == meta.inodes[ino].xattrs
  {
    hide Chunks, Listing, AllParts, Sub, Drawn, Holds;
    KeysOf(meta, pages, o, order);
    XattrsRebuilt(pages, meta, o, order, ino);
    var whole := meta.inodes[ino].xattrs;
    EmptySub(whole);
    var found := Lookup(AllParts(pages, order).xattrs, ino, map[]);
    forall name | name in whole ensures name in found {
      ListingMembers(whole, name, whole[name]);
      var i := ChunkOf(Listing(whole), o.xattrs, (name, whole[name]));
      assert Has(meta, o, OfXattr(ino, i));
    }
    MapsEqual(found, whole);
  }

  lemma BlocksWhole(pages: map<Key, Page>, meta: Metadata, o: Options, order: seq<Key>, ino: nat)
    requires ValidOptions(o) && Drawn(pages, meta, o, order) && ino in meta.inodes
    requires forall i: nat | Has(meta, o, OfShards(ino, i)) :: ShardKey(ino, i) in order
    ensures Lookup(AllParts(pages, order).blocks, ino, []) == meta.inodes[ino].blocks
  {
    hide Chunks, AllParts, Join, Seen, Ascending;
    KeysOf(meta, pages, o, order);
    var chunks := ShardChunks(meta.inodes[ino], o);
    ShardsListed(pages, meta, o, order, ino);
    BlocksRebuilt(pages, meta, o, order, ino);
    DrawnAscends(pages, meta, o, order);
    if Seen(order, ino) < |chunks| {
      assert Has(meta, o, OfShards(ino, Seen(order, ino)));
      SeenPages(order, ino, Seen(order, ino));
    }
    assert chunks[..|chunks|] == chunks;
    JoinChunks(meta.inodes[ino].blocks, o.blocks);
  }

  lemma ShardsListed(pages: map<Key, Page>, meta: Metadata, o: Options, order: seq<Key>, ino: nat)
    requires ValidOptions(o) && Drawn(pages, meta, o, order) && ino in meta.inodes
    requires forall i: nat | Has(meta, o, OfShards(ino, i)) :: ShardKey(ino, i) in order
    ensures DownClosed(order, ino)
  {
    hide Chunks, Before;
    forall p: nat, q: nat | q < p && ShardKey(ino, p) in order ensures ShardKey(ino, q) in order {
      var r: Ref :| Has(meta, o, r) && RefKey(r) == ShardKey(ino, p);
      RefKeyInjective(r, OfShards(ino, p));
      assert Has(meta, o, OfShards(ino, q));
    }
  }

  /** Inodes known to the parts are those of the document. */
  lemma InodesRebuilt(pages: map<Key, Page>, meta: Metadata, o: Options, order: seq<Key>)
    requires ValidOptions(o) && KeysAreIds(meta) && Holds(pages, meta, o) && IterationOrder(order, pages)
    ensures var parts := AllParts(pages, order);
            && parts.disks == meta.disks && parts.cores.Keys == meta.inodes.Keys
            && parts.entries.Keys <= meta.inodes.Keys && parts.xattrs.Keys <= meta.inodes.Keys
            && parts.blocks.Keys <= meta.inodes.Keys
            && forall ino | ino in meta.inodes ::
                 && parts.cores[ino] == meta.inodes[ino].core
                 && Lookup(parts.entries, ino, map[]) == meta.inodes[ino].entries
                 && Lookup(parts.xattrs, ino, map[]) == meta.inodes[ino].xattrs
                 && Lookup(parts.blocks, ino, []) == meta.inodes[ino].blocks
  {
    hide DirChunks, XattrChunks, ShardChunks, AllParts, Sub, Join, Seen, Before, Lookup, DownClosed, KeysAreIds;
    assert Drawn(pages, meta, o, order);
    forall r: Ref | Has(meta, o, r) ensures RefKey(r) in order { }
    forall id ensures id in AllParts(pages, order).disks <==> id in meta.disks {
      DisksRebuilt(pages, meta, o, order, id);
      if id in meta.disks { assert Has(meta, o, OfDisk(id)); }
    }
    forall id | id in meta.disks ensures AllParts(pages, order).disks[id] == meta.disks[id] {
      DisksRebuilt(pages, meta, o, order, id);
    }
    forall ino ensures ino in AllParts(pages, order).cores <==> ino in meta.inodes {
      CoresRebuilt(pages, meta, o, order, ino);
      if ino in meta.inodes { assert Has(meta, o, OfInode(ino)); }
    }
    PartKeys(pages, meta, o, order);
    forall ino | ino in meta.inodes
      ensures AllParts(pages, order).cores[ino] == meta.inodes[ino].core
           && Lookup(AllParts(pages, order).entries, ino, map[]) == meta.inodes[ino].entries
           && Lookup(AllParts(pages, order).xattrs, ino, map[]) == meta.inodes[ino].xattrs
           && Lookup(AllParts(pages, order).blocks, ino, []) == meta.inodes[ino].blocks
    {
      InodeRebuilt(pages, meta, o, order, ino);
    }
  }

  lemma InodeRebuilt(pages: map<Key, Page>, meta: Metadata, o: Options, order: seq<Key>, ino: nat)
    requires ValidOptions(o) && Drawn(pages, meta, o, order) && ino in meta.inodes
    requires forall r: Ref | Has(meta, o, r) :: RefKey(r) in order
    ensures ino in AllParts(pages, order).cores && AllParts(pages, order).cores[ino] == meta.inodes[ino].core
    ensures Lookup(AllParts(pages, order).entries, ino, map[]) == meta.inodes[ino].entries
    ensures Lookup(AllParts(pages, order).xattrs, ino, map[]) == meta.inodes[ino].xattrs
    ensures Lookup(AllParts(pages, order).blocks, ino, []) == meta.inodes[ino].blocks
  {
    hide DirChunks, XattrChunks, ShardChunks, AllParts, Drawn, Lookup;
    KeysOf(meta, pages, o, order);
    assert Has(meta, o, OfInode(ino));
    assert RefKey(OfInode(ino)) in order;
    CoresRebuilt(pages, meta, o, order, ino);
    forall i: nat | Has(meta, o, OfDirectory(ino, i))
      ensures DirectoryKey(ino, i) in order
    {
      assert RefKey(OfDirectory(ino, i)) in order;
    }
    forall i: nat | Has(meta, o, OfXattr(ino, i))
      ensures XattrKey(ino, i) in order
    {
      assert RefKey(OfXattr(ino, i)) in order;
    }
    forall i: nat | Has(meta, o, OfShards(ino, i))
      ensures ShardKey(ino, i) in order
    {
      assert RefKey(OfShards(ino, i)) in order;
    }
    EntriesWhole(pages, meta, o, order, ino);
    XattrsWhole(pages, meta, o, order, ino);
    BlocksWhole(pages, meta, o, order, ino);
  }

  lemma PartKeys(pages: map<Key, Page>, meta: Metadata, o: Options, order: seq<Key>)
    requires ValidOptions(o) && Drawn(pages, meta, o, order) && forall r: Ref | Has(meta, o, r) :: RefKey(r) in order
    ensures var parts := AllParts(pages, order);
            && parts.entries.Keys <= meta.inodes.Keys && parts.xattrs.Keys <= meta.inodes.Keys
            && parts.blocks.Keys <= meta.inodes.Keys
  {
    hide DirChunks, XattrChunks, ShardChunks, AllParts, Drawn, Sub;
    KeysOf(meta, pages, o, order);
    forall ino | ino in AllParts(pages, order).entries
      ensures ino in meta.inodes
    {
      EntriesRebuilt(pages, meta, o, order, ino);
    }
    forall ino | ino in AllParts(pages, order).xattrs
      ensures ino in meta.inodes
    {
      XattrsRebuilt(pages, meta, o, order, ino);
    }
    forall ino | ino in AllParts(pages, order).blocks
      ensures ino in meta.inodes
    {
      BlockOwner(pages, meta, o, order, ino);
    }
  }

  lemma {:induction false} BlockOwner(pages: map<Key, Page>, meta: Metadata, o: Options, order: seq<Key>, ino: nat)
    requires ValidOptions(o) && Drawn(pages, meta, o, order)
    ensures ino in AllParts(pages, order).blocks ==> ino in meta.inodes
    decreases |order|
  {
    hide AllParts, PageOf, Chunks, Listing, DirChunks, XattrChunks, ShardChunks, Drawn, Inserted, Before;
    if order == [] {
      NoParts(pages);
    } else {
      var r := LastPage(pages, meta, o, order);
      BlockOwner(pages, meta, o, order[..|order| - 1], ino);
    }
  }

  /** Cutting a document into pages of any positive sizes and putting the pages
      together again gives the document. */
  lemma RoundTrip(meta: Metadata, store: Store, order: seq<Key>)
    requires store.version == PAGED_METADATA_VERSION && ValidOptions(store.options)
    requires KeysAreIds(meta) && Holds(store.pages, meta, store.options) && IterationOrder(order, store.pages)
    ensures ToMetadata(store, order) == Ok(meta)
  {
    hide DirChunks, XattrChunks, ShardChunks, AllParts, Collected, Lookup, KeysAreIds, Before;
    var o := store.options;
    HeldSound(store.pages, meta, o);
    SoundCollects(store.pages, order);
    InodesRebuilt(store.pages, meta, o, order);
    assert Has(meta, o, TheHeader);
    assert store.pages[HeaderKey()] == HeaderPage(meta);
    SameMetadata(meta, AllParts(store.pages, order));
  }

  lemma {:induction false} DisksKeyed(pages: map<Key, Page>, order: seq<Key>)
    requires forall k | k in order :: k in pages
    requires Collected(pages, order).Some?
    ensures forall id | id in Collected(pages, order).value.disks :: Collected(pages, order).value.disks[id].id == id
    decreases |order|
  {
    hide ValidKey, Repeats;
    if order != [] {
      var init := order[..|order| - 1];
      assert forall k | k in init :: k in order;
      DisksKeyed(pages, init);
    }
  }

  /** Whatever the pages, in a decoded document the keys are the ids. */
  lemma DecodedKeysAreIds(store: Store, order: seq<Key>)
    requires forall k :: k in order <==> k in store.pages
    requires ToMetadata(store, order).Ok?
    ensures KeysAreIds(ToMetadata(store, order).value)
  {
    hide Collected, HashOk, Lookup;
    DisksKeyed(store.pages, order);
  }

  /** The store made of a document decodes to it if and only if the keys of the
      document are the ids. */
  lemma RoundTripIff(meta: Metadata, store: Store, order: seq<Key>)
    requires store.version == PAGED_METADATA_VERSION && ValidOptions(store.options)
    requires KeysAreIds(meta) ==> Holds(store.pages, meta, store.options)
    requires IterationOrder(order, store.pages)
    ensures ToMetadata(store, order) == Ok(meta) <==> KeysAreIds(meta)
  {
    hide ToMetadata, KeysAreIds, Holds, Before;
    if KeysAreIds(meta) { RoundTrip(meta, store, order); }
    if ToMetadata(store, order).Ok? { DecodedKeysAreIds(store, order); }
  }

  lemma SameMetadata(meta: Metadata, parts: Parts)
    requires KeysAreIds(meta) && parts.disks == meta.disks && parts.cores.Keys == meta.inodes.Keys
    requires parts.entries.Keys <= meta.inodes.Keys && parts.xattrs.Keys <= meta.inodes.Keys
    requires parts.blocks.Keys <= meta.inodes.Keys
    requires forall ino | ino in meta.inodes ::
               && parts.cores[ino] == meta.inodes[ino].core
               && Lookup(parts.entries, ino, map[]) == meta.inodes[ino].entries
               && Lookup(parts.xattrs, ino, map[]) == meta.inodes[ino].xattrs
               && Lookup(parts.blocks, ino, []) == meta.inodes[ino].blocks
    ensures Rebuilt(HeaderBody(meta.header, meta.txid), parts) == Ok(meta)
  {
    hide Lookup;
    var inodes := map ino | ino in parts.cores ::
      InodeRecord(ino, parts.cores[ino], Lookup(parts.entries, ino, map[]), Lookup(parts.xattrs, ino, map[]),
                  Lookup(parts.blocks, ino, []));
    forall ino | ino in meta.inodes ensures inodes[ino] == meta.inodes[ino] { assert meta.inodes[ino].id == ino; }
    assert inodes == meta.inodes;
  }

  lemma BeforeTotal(a: Key, b: Key)
    ensures a == b || Before(a, b) || Before(b, a)
  {
    KeyLeqTotal(a.owner, b.owner);
  }

  lemma BeforeTransitive(a: Key, b: Key, c: Key)
    requires Before(a, b) && Before(b, c)
    ensures Before(a, c)
  {
    if a.kind == b.kind == c.kind {
      KeyLeqTotal(a.owner, b.owner);
      KeyLeqTotal(b.owner, c.owner);
      if KeyLeq(a.owner, b.owner) && KeyLeq(b.owner, c.owner) { KeyLeqTransitive(a.owner, b.owner, c.owner); }
      KeyLeqTotal(a.owner, c.owner);
    }
  }

  lemma {:induction false} LastKey(keys: set<Key>) returns (k: Key)
    requires keys != {}
    ensures k in keys && forall j | j in keys && j != k :: Before(j, k)
    decreases |keys|
  {
    k :| k in keys;
    var rest := keys - {k};
    if rest != {} {
      var l := LastKey(rest);
      BeforeTotal(k, l);
      if Before(k, l) {
        k := l;
      } else {
        forall j | j in keys && j != k ensures Before(j, k) {
          if j != l { BeforeTransitive(j, l, k); }
        }
      }
    }
  }

  /** Every page table has an iteration order. */
  lemma {:induction false} OrderExists(keys: set<Key>) returns (order: seq<Key>)
    ensures forall k :: k in order <==> k in keys
    ensures Ascending(order)
    decreases |keys|
  {
    if keys == {} {
      order := [];
    } else {
      var k := LastKey(keys);
      var init := OrderExists(keys - {k});
      order := init + [k];
      forall i, j | 0 <= i < j < |order| ensures Before(order[i], order[j]) {
        assert order[i] == init[i] && init[i] in init;
      }
    }
  }

  // ---------------------------------------------------------------------------
  // Page deltas
  // ---------------------------------------------------------------------------

  datatype DeltaOp = Put(page: Page) | Delete(key: Key)

  function Deletes(order: seq<Key>, next: map<Key, Page>): seq<DeltaOp> {
    if order == [] then []
    else
      var k := order[|order| - 1];
      Deletes(order[..|order| - 1], next) + if k in next then [] else [Delete(k)]
  }

  predicate IsChanged(k: Key, previous: map<Key, Page>, next: map<Key, Page>)
    requires k in next
  {
    k !in previous || previous[k].hash != next[k].hash
  }

  function Puts(order: seq<Key>, previous: map<Key, Page>, next: map<Key, Page>): seq<DeltaOp>
    requires forall k | k in order :: k in next
    decreases |order|
  {
    if order == [] then []
    else
      var init, k := order[..|order| - 1], order[|order| - 1];
      assert forall j | j in init :: j in order;
      Puts(init, previous, next) + if IsChanged(k, previous, next) then [Put(next[k])] else []
  }

  lemma {:induction false} DeletesExact(order: seq<Key>, next: map<Key, Page>, op: DeltaOp)
    ensures op in Deletes(order, next) <==> op.Delete? && op.key in order && op.key !in next
  {
    if order != [] {
      DeletesExact(order[..|order| - 1], next, op);
      assert order == order[..|order| - 1] + [order[|order| - 1]];
    }
  }

  lemma {:induction false} PutsExact(order: seq<Key>, previous: map<Key, Page>, next: map<Key, Page>, op: DeltaOp)
    requires forall k | k in order :: k in next
    ensures op in Puts(order, previous, next) <==>
            op.Put? && exists k :: k in order && IsChanged(k, previous, next) && op.page == next[k]
    decreases |order|
  {
    if order != [] {
      var init := order[..|order| - 1];
      assert order == init + [order[|order| - 1]];
      PutsExact(init, previous, next, op);
    }
  }

  /** Nothing more than needed: between stores whose pages carry their hashes, the
      delta deletes exactly the pages that are gone and puts exactly those that
      are new or have another body, so it is empty if and only if the stores
      hold the same bodies. */
  lemma DeltaMinimal(previous: map<Key, Page>, next: map<Key, Page>, previousOrder: seq<Key>, nextOrder: seq<Key>)
    requires SoundPages(previous) && SoundPages(next)
    requires (forall k :: k in previousOrder <==> k in previous) && (forall k :: k in nextOrder <==> k in next)
    ensures forall op :: op in Deletes(previousOrder, next) + Puts(nextOrder, previous, next) <==>
              match op
              case Delete(k) => k in previous && k !in next
              case Put(page) => page.key in next && page == next[page.key]
                                && (page.key !in previous || previous[page.key].body != page.body)
    ensures Deletes(previousOrder, next) + Puts(nextOrder, previous, next) == [] <==> SameBodies(previous, next)
  {
    hide ValidKey;
    var delta := Deletes(previousOrder, next) + Puts(nextOrder, previous, next);
    forall op
      ensures op in delta <==>
              match op
              case Delete(k) => k in previous && k !in next
              case Put(page) => page.key in next && page == next[page.key]
                                && (page.key !in previous || previous[page.key].body != page.body)
    {
      DeletesExact(previousOrder, next, op);
      PutsExact(nextOrder, previous, next, op);
      if op.Put? && op.page.key in next { assert op.page.key in nextOrder; }
    }
    if delta != [] {
      assert delta[0] in delta;
    } else {
      forall k ensures k in previous <==> k in next {
        assert Delete(k) !in delta;
        assert k in next ==> Put(next[k]) !in delta;
      }
      forall k | k in next ensures previous[k].body == next[k].body { assert Put(next[k]) !in delta; }
    }
  }

  /** `previousOrder` and `nextOrder` are the iteration orders of the two tables. */
  method PageDelta(previous: map<Key, Page>, next: map<Key, Page>, previousOrder: seq<Key>, nextOrder: seq<Key>)
    returns (delta: seq<DeltaOp>)
    requires forall k | k in nextOrder :: k in next
    ensures delta == Deletes(previousOrder, next) + Puts(nextOrder, previous, next)
  {
    delta := [];
    for i := 0 to |previousOrder|
      invariant delta == Deletes(previousOrder[..i], next)
    {
      assert previousOrder[..i + 1][..i] == previousOrder[..i];
      if previousOrder[i] !in next { delta := delta + [Delete(previousOrder[i])]; }
    }
    assert previousOrder[..|previousOrder|] == previousOrder;
    for i := 0 to |nextOrder|
      invariant forall k | k in nextOrder[..i] :: k in next
      invariant delta == Deletes(previousOrder, next) + Puts(nextOrder[..i], previous, next)
    {
      assert nextOrder[..i + 1][..i] == nextOrder[..i];
      var k := nextOrder[i];
      assert k in nextOrder;
      if k !in previous || previous[k].hash != next[k].hash { delta := delta + [Put(next[k])]; }
    }
    assert nextOrder[..|nextOrder|] == nextOrder;
  }

  /** The pages after the operations, and whether all were accepted. */
  function Apply(pages: map<Key, Page>, ops: seq<DeltaOp>): (map<Key, Page>, bool)
    decreases |ops|
  {
    if ops == [] then (pages, true)
    else
      var (sofar, ok) := Apply(pages, ops[..|ops| - 1]);
      if !ok then (sofar, false)
      else match ops[|ops| - 1]
        case Put(page) => if HashOk(page) && ValidKey(page) then (sofar[page.key := page], true) else (sofar, false)
        case Delete(key) => (sofar - {key}, true)
  }

  method ApplyDelta(before: map<Key, Page>, delta: seq<DeltaOp>) returns (pages: map<Key, Page>, ok: bool)
    ensures (pages, ok) == Apply(before, delta)
  {
    pages := before;
    for i := 0 to |delta|
      invariant (pages, true) == Apply(before, delta[..i])
    {
      assert delta[..i + 1][..i] == delta[..i];
      match delta[i] {
        case Put(page) =>
          if !HashOk(page) || !ValidKey(page) {
            Stopped(before, delta, i + 1);
            return pages, false;
          }
          pages := pages[page.key := page];
        case Delete(key) =>
          pages := pages - {key};
      }
    }
    assert delta[..|delta|] == delta;
    ok := true;
  }

  lemma {:induction false} Stopped(pages: map<Key, Page>, ops: seq<DeltaOp>, n: nat)
    requires n <= |ops| && !Apply(pages, ops[..n]).1
    ensures Apply(pages, ops) == Apply(pages, ops[..n])
    decreases |ops|
  {
    if n < |ops| {
      assert ops[..|ops| - 1][..n] == ops[..n];
      Stopped(pages, ops[..|ops| - 1], n);
    } else {
      assert ops[..n] == ops;
    }
  }

  lemma {:induction false} ApplyConcat(pages: map<Key, Page>, a: seq<DeltaOp>, b: seq<DeltaOp>)
    requires Apply(pages, a).1
    ensures Apply(pages, a + b) == Apply(Apply(pages, a).0, b)
    decreases |b|
  {
    if b == [] {
      assert a + b == a;
    } else {
      ApplyConcat(pages, a, b[..|b| - 1]);
      assert (a + b)[..|a + b| - 1] == a + b[..|b| - 1];
    }
  }

  lemma ApplySnoc(pages: map<Key, Page>, ops: seq<DeltaOp>, op: DeltaOp)
    requires Apply(pages, ops).1
    ensures Apply(pages, ops + [op]) ==
            match op
            case Put(page) =>
              if HashOk(page) && ValidKey(page) then (Apply(pages, ops).0[page.key := page], true)
              else (Apply(pages, ops).0, false)
            case Delete(key) => (Apply(pages, ops).0 - {key}, true)
  {
    assert (ops + [op])[..|ops|] == ops;
  }

  lemma {:induction false} DeletesApply(pages: map<Key, Page>, order: seq<Key>, next: map<Key, Page>, k: Key)
    ensures Apply(pages, Deletes(order, next)).1
    ensures var after := Apply(pages, Deletes(order, next)).0;
            && (k in after <==> k in pages && (k !in order || k in next))
            && (k in after ==> after[k] == pages[k])
    decreases |order|
  {
    hide Apply;
    if order == [] {
      NothingApplied(pages);
    } else {
      var init, last := order[..|order| - 1], order[|order| - 1];
      assert order == init + [last];
      DeletesApply(pages, init, next, k);
      if last in next {
        assert Deletes(init, next) + [] == Deletes(init, next);
      } else {
        ApplySnoc(pages, Deletes(init, next), Delete(last));
      }
    }
  }

  lemma NothingApplied(pages: map<Key, Page>)
    ensures Apply(pages, []) == (pages, true)
  {
  }

  lemma {:induction false} PutsApply(pages: map<Key, Page>, order: seq<Key>, previous: map<Key, Page>, next: map<Key,
                                     Page>, k: Key)
    requires SoundPages(next) && forall j | j in order :: j in next
    ensures Apply(pages, Puts(order, previous, next)).1
    ensures var after := Apply(pages, Puts(order, previous, next)).0;
            if k in order && IsChanged(k, previous, next) then k in after && after[k] == next[k]
            else (k in after <==> k in pages) && (k in after ==> after[k] == pages[k])
    decreases |order|
  {
    hide Apply, IsChanged, HashOk, ValidKey;
    if order == [] {
      NothingApplied(pages);
    } else {
      var init, last := order[..|order| - 1], order[|order| - 1];
      assert order == init + [last];
      assert forall j | j in init :: j in order;
      assert last in order;
      PutsApply(pages, init, previous, next, k);
      if IsChanged(last, previous, next) {
        ApplySnoc(pages, Puts(init, previous, next), Put(next[last]));
      } else {
        assert Puts(init, previous, next) + [] == Puts(init, previous, next);
      }
    }
  }

  /** Same keys, and under each key the same body and hash. */
  ghost predicate SameBodies(pages: map<Key, Page>, pages': map<Key, Page>) {
    pages.Keys == pages'.Keys && forall k | k in pages ::
      pages[k].body == pages'[k].body && pages[k].hash == pages'[k].hash && pages[k].key == pages'[k].key
  }

  /** Applying the delta is accepted in full and gives the next store, page
      transaction numbers aside. */
  lemma DeltaApplies(previous: map<Key, Page>, next: map<Key, Page>, previousOrder: seq<Key>, nextOrder: seq<Key>)
    requires SoundPages(previous) && SoundPages(next)
    requires (forall k :: k in previousOrder <==> k in previous) && (forall k :: k in nextOrder <==> k in next)
    ensures var (after, ok) := Apply(previous, Deletes(previousOrder, next) + Puts(nextOrder, previous, next));
            ok && SameBodies(after, next)
  {
    hide Apply, Deletes, Puts;
    var deletes, puts := Deletes(previousOrder, next), Puts(nextOrder, previous, next);
    var k0 := HeaderKey();
    DeletesApply(previous, previousOrder, next, k0);
    var middle := Apply(previous, deletes).0;
    ApplyConcat(previous, deletes, puts);
    PutsApply(middle, nextOrder, previous, next, k0);
    var after := Apply(middle, puts).0;
    forall k ensures k in after <==> k in next {
      DeletesApply(previous, previousOrder, next, k);
      PutsApply(middle, nextOrder, previous, next, k);
    }
    forall k | k in after
      ensures after[k].body == next[k].body && after[k].hash == next[k].hash && after[k].key == next[k].key
    {
      DeletesApply(previous, previousOrder, next, k);
      PutsApply(middle, nextOrder, previous, next, k);
    }
  }

  lemma {:induction false} SameCollected(pages: map<Key, Page>, pages': map<Key, Page>, order: seq<Key>)
    requires SameBodies(pages, pages') && forall k | k in order :: k in pages
    ensures Collected(pages, order) == Collected(pages', order)
    decreases |order|
  {
    hide Absorb;
    if order != [] {
      var init := order[..|order| - 1];
      assert forall k | k in init :: k in order;
      SameCollected(pages, pages', init);
      assert order[|order| - 1] in order;
      assert forall i | 0 <= i < |order| :: order[i] in order && pages[order[i]].key == pages'[order[i]].key;
    }
  }

  /** Page transaction numbers do not reach the decoded document. */
  lemma SameDecoded(store: Store, store': Store, order: seq<Key>)
    requires store.version == store'.version && (ValidOptions(store.options) <==> ValidOptions(store'.options))
    requires SameBodies(store.pages, store'.pages) && forall k :: k in order <==> k in store.pages
    ensures ToMetadata(store, order) == ToMetadata(store', order)
  {
    hide Collected, Rebuilt;
    SameCollected(store.pages, store'.pages, order);
    assert forall k | k in store.pages :: HashOk(store.pages[k]) <==> HashOk(store'.pages[k]);
  }

  /** The delta from one store to the next, applied to the first, decodes to the
      document of the next. */
  lemma DeltaDecodes(previous: Store, next: Store, previousOrder: seq<Key>, nextOrder: seq<Key>)
    requires SoundPages(previous.pages) && SoundPages(next.pages) && previous.version == next.version
    requires ValidOptions(previous.options) <==> ValidOptions(next.options)
    requires IterationOrder(previousOrder, previous.pages) && IterationOrder(nextOrder, next.pages)
    ensures var (after, ok) :=
            Apply(previous.pages, Deletes(previousOrder, next.pages) + Puts(nextOrder, previous.pages, next.pages));
            && ok && (forall k :: k in nextOrder <==> k in after)
            && ToMetadata(previous.(pages := after), nextOrder) == ToMetadata(next, nextOrder)
  {
    hide Apply, Deletes, Puts, ToMetadata, Before;
    DeltaApplies(previous.pages, next.pages, previousOrder, nextOrder);
    var after := Apply(previous.pages,
                       Deletes(previousOrder, next.pages) + Puts(nextOrder, previous.pages, next.pages)).0;
    SameDecoded(previous.(pages := after), next, nextOrder);
  }
}
