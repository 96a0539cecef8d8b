/** The metadata package on values: the content-keyed reference-counted map, the path-keyed maps, and
    the heap of extended-attribute maps that metadata records point into. */
module StoreModel {
  import opened Basics

  /** A `MapEntryMetadata`. XAttr is a Go map, hence a reference: `xattr` is its address, None when nil. */
  datatype Meta = Meta(
    path: Path, dev: nat, ino: nat, gen: nat, nlink: int, mode: nat, uid: nat, gid: nat, pad0: int,
    rdev: nat, size: int, blksize: int, blocks: int, atim: Timespec, mtim: Timespec, ctim: Timespec,
    unused: seq<int>, xattr: Option<nat>)

  const EPOCH := Timespec(0, 0)
  const DEFAULT_META := Meta([], 0, 0, 0, 0, 0, 0, 0, 0, 0, 0, 0, 0, EPOCH, EPOCH, EPOCH, [0, 0, 0], None)

  /** A `MapEntry`; the counters are a uint32 and a uint64. */
  datatype Entry = Entry(refCount: nat, list: map<nat, Meta>, counter: nat)

  type Files = map<Hash, Entry>

  datatype NodeInfo = NodeInfo(stable: StableAttr, mode: nat, isDir: bool, hash: Hash, ref: nat)

  type XAttrs = map<Bytes, Bytes>

  datatype Store = Store(
    files: Files, dirs: map<Path, Meta>, nodes: map<Path, NodeInfo>, xattrs: map<nat, XAttrs>, next: nat)

  // ---------- regularFileMetadataHash ----------

  predicate Live(files: Files, h: Hash, r: nat) {
    h in files && r in files[h].list
  }

  function Lookup(files: Files, h: Hash, r: nat): Option<Meta> {
    if Live(files, h, r) then Some(files[h].list[r]) else None
  }

  predicate IsUnique(files: Files, h: Hash) {
    h == ZERO || h !in files
  }

  function CreateEntry(files: Files, h: Hash): Files {
    if h in files then files else files[h := Entry(0, map[], 0)]
  }

  function NextRef(e: Entry): nat { Inc(e.counter, U64) }

  function AddMeta(e: Entry): Entry {
    Entry(Inc(e.refCount, U32), e.list[NextRef(e) := DEFAULT_META], NextRef(e))
  }

  /** What every Release does to the map first: find or make the entry, then add a default record. */
  function Claim(files: Files, h: Hash): Files {
    files[h := AddMeta(CreateEntry(files, h)[h])]
  }

  function ClaimedRef(files: Files, h: Hash): nat {
    NextRef(CreateEntry(files, h)[h])
  }

  function RemoveRef(e: Entry, r: nat): Entry {
    Entry(Dec(e.refCount, U32), e.list - {r}, e.counter)
  }

  /** `RemoveRegularFileMetadata`; a zero hash or a zero reference is refused. */
  function Remove(files: Files, h: Hash, r: nat): Files {
    if h == ZERO || r == 0 || !Live(files, h, r) then files
    else if RemoveRef(files[h], r).refCount == 0 then files - {h}
    else files[h := RemoveRef(files[h], r)]
  }

  /** Overwrite one live record. */
  function Fill(files: Files, h: Hash, r: nat, m: Meta): Files {
    if Live(files, h, r) then files[h := files[h].(list := files[h].list[r := m])] else files
  }

  /** The first live reference at or below n. */
  function ScanDown(list: map<nat, Meta>, n: nat): Option<nat> {
    if n in list then Some(n) else if n == 0 then None else ScanDown(list, n - 1)
  }

  /** `RetrieveRecent`, on entries where its scan stops before wrapping around. */
  function Recent(e: Entry): Option<Meta> {
    if e.counter == 0 then None
    else
      var r := ScanDown(e.list, e.counter);
      if r.Some? && r.value in e.list then Some(e.list[r.value]) else None
  }

  // ---------- records ----------

  datatype Loc = FileLoc(h: Hash, r: nat) | DirLoc(p: Path)

  function MetaAt(s: Store, l: Loc): Option<Meta> {
    match l
    case FileLoc(h, r) => Lookup(s.files, h, r)
    case DirLoc(p) => if p in s.dirs then Some(s.dirs[p]) else None
  }

  /** Assign to the record at l; nothing is left to assign to once it has been removed. */
  function Put(s: Store, l: Loc, m: Meta): Store {
    match l
    case FileLoc(h, r) => s.(files := Fill(s.files, h, r, m))
    case DirLoc(p) => if p in s.dirs then s.(dirs := s.dirs[p := m]) else s
  }

  /** `make(map[string][]byte)` */
  function NewXAttrs(s: Store): Store {
    s.(xattrs := s.xattrs[s.next := map[]], next := s.next + 1)
  }

  function FromStat(m: Meta, st: Stat, stable: StableAttr, path: Path, xattr: nat): Meta {
    Meta(path, st.dev, stable.ino, stable.gen, st.nlink, st.mode, st.uid, st.gid, st.pad0, st.rdev, st.size,
         st.blksize, st.blocks, st.atim, st.mtim, st.ctim, st.unused, Some(xattr))
  }

  /** `updateAllFromStat` on the record at l. */
  function UpdateAllFromStat(s: Store, l: Loc, st: Stat, stable: StableAttr, path: Path): Store {
    match MetaAt(s, l)
    case None => s
    case Some(m) =>
      if m.xattr.Some? then Put(s, l, FromStat(m, st, stable, path, m.xattr.value))
      else Put(NewXAttrs(s), l, FromStat(m, st, stable, path, s.next))
  }

  /** `MigrateRegularFileMetadata` */
  function MigrateRegular(was: Meta, st: Stat): Meta {
    Meta(was.path, was.dev, was.ino, was.gen, st.nlink, was.mode, was.uid, was.gid, st.pad0, st.rdev, st.size,
         st.blksize, st.blocks, st.atim, st.mtim, was.ctim, st.unused, was.xattr)
  }

  /** `MigrateDuplicateFileMetadata`; Ino, Gen and Mtim of the new record stay as they are. */
  function MigrateDuplicate(was: Meta, m: Meta, st: Stat): Meta {
    Meta(was.path, was.dev, m.ino, m.gen, was.nlink, was.mode, was.uid, was.gid, was.pad0, was.rdev, st.size,
         st.blksize, st.blocks, was.atim, m.mtim, was.ctim, was.unused, was.xattr)
  }

  /** `InitialiseNewDuplicateFileMetadata`; Ino and Gen stay as they are. */
  function FromSpare(m: Meta, spare: Stat, link: Stat, path: Path, uid: nat, gid: nat, xattr: nat): Meta {
    Meta(path, spare.dev, m.ino, m.gen, spare.nlink, spare.mode, uid, gid, spare.pad0, spare.rdev, link.size,
         link.blksize, link.blocks, spare.atim, spare.mtim, spare.ctim, spare.unused, Some(xattr))
  }

  function WithTime(m: Meta, a: Option<Timespec>, mt: Option<Timespec>, c: Option<Timespec>): Meta {
    m.(atim := if a.Some? then a.value else m.atim,
       mtim := if mt.Some? then mt.value else m.mtim,
       ctim := if c.Some? then c.value else m.ctim)
  }

  function WithOwner(m: Meta, uid: Option<nat>, gid: Option<nat>): Meta {
    m.(uid := if uid.Some? then uid.value else m.uid, gid := if gid.Some? then gid.value else m.gid)
  }

  function UpdateTime(s: Store, l: Loc, a: Option<Timespec>, mt: Option<Timespec>, c: Option<Timespec>): Store {
    if MetaAt(s, l).Some? then Put(s, l, WithTime(MetaAt(s, l).value, a, mt, c)) else s
  }

  // ---------- dirMetadataHash and nodePersistenceHash ----------

  /** `CreateDirEntry` */
  function CreateDirEntry(s: Store, p: Path): Store {
    NewXAttrs(s).(dirs := s.dirs[p := DEFAULT_META.(xattr := Some(s.next))])
  }

  function RemoveDirEntry(s: Store, p: Path): Store { s.(dirs := s.dirs - {p}) }

  function StoreReg(s: Store, p: Path, stable: StableAttr, mode: nat, h: Hash, r: nat): Store {
    s.(nodes := s.nodes[p := NodeInfo(stable, mode, false, h, r)])
  }

  function StoreDir(s: Store, p: Path, stable: StableAttr, mode: nat): Store {
    s.(nodes := s.nodes[p := NodeInfo(stable, mode, true, ZERO, 0)])
  }

  /** `UpdateNodeInfo` as Release calls it. */
  function SetKey(s: Store, p: Path, h: Hash, r: nat): Store {
    if p in s.nodes then s.(nodes := s.nodes[p := s.nodes[p].(hash := h, ref := r)]) else s
  }

  function RemoveNode(s: Store, p: Path): Store { s.(nodes := s.nodes - {p}) }

  /** Where the record of a path lives, if the path is known. */
  function LocOf(s: Store, p: Path): Option<Loc> {
    if p !in s.nodes then None
    else if s.nodes[p].isDir then Some(DirLoc(p))
    else Some(FileLoc(s.nodes[p].hash, s.nodes[p].ref))
  }

  function MetaOf(s: Store, p: Path): Option<Meta> {
    if LocOf(s, p).Some? then MetaAt(s, LocOf(s, p).value) else None
  }

  // ---------- well-formedness over all sequential runs ----------

  ghost predicate EntryWF(e: Entry) {
    && e.refCount == |e.list| > 0
    && e.refCount < U32 && e.counter < U64
    && (forall r | r in e.list :: 1 <= r <= e.counter)
  }

  /** The empty-file class never loses a record. */
  ghost predicate Gapless(e: Entry) {
    forall r | 1 <= r <= e.counter :: r in e.list
  }

  ghost predicate FilesWF(files: Files) {
    && (forall h | h in files :: EntryWF(files[h]))
    && (ZERO in files ==> Gapless(files[ZERO]))
  }

  /** Headroom: the next Claim of h overflows neither counter. */
  predicate Room(files: Files, h: Hash) {
    h in files ==> files[h].counter + 1 < U64 && files[h].refCount + 1 < U32
  }

  lemma AddMetaWF(e: Entry)
    requires e == Entry(0, map[], 0) || EntryWF(e)
    requires e.counter + 1 < U64 && e.refCount + 1 < U32
    ensures AddMeta(e) == Entry(e.refCount + 1, e.list[e.counter + 1 := DEFAULT_META], e.counter + 1)
    ensures EntryWF(AddMeta(e)) && e.counter + 1 !in e.list
    ensures Gapless(e) ==> Gapless(AddMeta(e))
  {
    assert NextRef(e) == e.counter + 1 && Inc(e.refCount, U32) == e.refCount + 1;
    hide NextRef, Inc;
    assert AddMeta(e).list.Keys == e.list.Keys + {e.counter + 1};
  }

  lemma ClaimWF(files: Files, h: Hash)
    requires FilesWF(files) && Room(files, h)
    ensures FilesWF(Claim(files, h))
    ensures ClaimedRef(files, h) == (if h in files then files[h].counter + 1 else 1)
    ensures !Live(files, h, ClaimedRef(files, h))
  {
    AddMetaWF(CreateEntry(files, h)[h]);
  }

  lemma RemoveRefSize(list: map<nat, Meta>, r: nat)
    requires r in list
    ensures |list - {r}| == |list| - 1
  {
    assert (list - {r}).Keys == list.Keys - {r};
  }

  lemma RemoveWF(files: Files, h: Hash, r: nat)
    requires FilesWF(files)
    ensures FilesWF(Remove(files, h, r))
  {
    if h != ZERO && r != 0 && Live(files, h, r) {
      RemoveRefSize(files[h].list, r);
    }
  }

  lemma FillWF(files: Files, h: Hash, r: nat, m: Meta)
    requires FilesWF(files)
    ensures FilesWF(Fill(files, h, r, m))
  {
    if Live(files, h, r) {
      assert (files[h].list[r := m]).Keys == files[h].list.Keys;
    }
  }

  /** In terms of what is live: Remove takes exactly (h, r) out, unless h is the empty-file class. */
  lemma RemoveLive(files: Files, h: Hash, r: nat, h': Hash, r': nat)
    requires FilesWF(files)
    ensures Lookup(Remove(files, h, r), h', r') ==
            if (h', r') == (h, r) && h != ZERO then None else Lookup(files, h', r')
    ensures h' in Remove(files, h, r) ==> h' in files && Remove(files, h, r)[h'].counter == files[h'].counter
  {
    if h != ZERO && r != 0 && Live(files, h, r) {
      RemoveRefSize(files[h].list, r);
    }
  }

  lemma ClaimLive(files: Files, h: Hash, h': Hash, r': nat)
    requires FilesWF(files) && Room(files, h)
    ensures Lookup(Claim(files, h), h', r') ==
            if (h', r') == (h, ClaimedRef(files, h)) then Some(DEFAULT_META) else Lookup(files, h', r')
  {
    ClaimWF(files, h);
  }

  lemma FillLive(files: Files, h: Hash, r: nat, m: Meta, h': Hash, r': nat)
    ensures Lookup(Fill(files, h, r, m), h', r') ==
            if (h', r') == (h, r) && Live(files, h, r) then Some(m) else Lookup(files, h', r')
  {
  }

  // ---------- RetrieveRecent ----------

  lemma {:induction false} ScanDownFindsLargest(list: map<nat, Meta>, n: nat)
    ensures match ScanDown(list, n)
      case Some(r) => r in list && r <= n && forall k | k in list && k <= n :: k <= r
      case None => forall k | k in list :: k > n
  {
    if n !in list && n != 0 {
      ScanDownFindsLargest(list, n - 1);
    }
  }

  /** On a well-formed entry the scan finds the record with the largest live reference. */
  lemma RecentIsLargest(e: Entry) returns (r: nat)
    requires EntryWF(e)
    ensures r in e.list && Recent(e) == Some(e.list[r])
    ensures forall k | k in e.list :: k <= r
  {
    ScanDownFindsLargest(e.list, e.counter);
    assert e.list.Keys != {};
    var k :| k in e.list.Keys;
    r := ScanDown(e.list, e.counter).value;
  }
}
