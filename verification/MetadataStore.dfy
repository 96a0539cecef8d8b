/** The metadata package as it runs: objects reached through three maps and assigned to in place. The ghost
    field `view` is the store on values that the maps stand for; every method says what it does to it. */
module MetadataStore {
  import opened Basics
  import opened StoreModel
  import opened StoreRuns
  import opened Session

  /** A `map[string][]byte`; its id is its address in the store on values. */
  class XAttrMap {
    ghost const id: nat
    var attrs: XAttrs

    constructor (ghost id: nat)
      ensures this.id == id && attrs == map[]
    {
      this.id, attrs := id, map[];
    }
  }

  class MapEntryMetadata {
    /** Where the record was put when it was made; the code never moves a record. */
    ghost const home: Loc
    var path: Path
    var dev: nat
    var ino: nat
    var gen: nat
    var nlink: int
    var mode: nat
    var uid: nat
    var gid: nat
    var pad0: int
    var rdev: nat
    var size: int
    var blksize: int
    var blocks: int
    var atim: Timespec
    var mtim: Timespec
    var ctim: Timespec
    var unused: seq<int>
    var xattr: XAttrMap?

    constructor (ghost home: Loc, xattr: XAttrMap?)
      ensures this.home == home && this.xattr == xattr
      ensures Value() == DEFAULT_META.(xattr := if xattr == null then None else Some(xattr.id))
    {
      this.home, this.xattr := home, xattr;
      path, dev, ino, gen, nlink, mode, uid, gid, pad0, rdev := [], 0, 0, 0, 0, 0, 0, 0, 0, 0;
      size, blksize, blocks, atim, mtim, ctim, unused := 0, 0, 0, EPOCH, EPOCH, EPOCH, [0, 0, 0];
    }

    /** Pointers to values that are not to change are nil in the code, None here. */
    method UpdateTime(atim: Option<Timespec>, mtim: Option<Timespec>, ctim: Option<Timespec>)
      modifies this
      ensures Value() == WithTime(old(Value()), atim, mtim, ctim) && xattr == old(xattr)
    {
      if atim.Some? { this.atim := atim.value; }
      if mtim.Some? { this.mtim := mtim.value; }
      if ctim.Some? { this.ctim := ctim.value; }
    }

    method UpdateOwner(uid: Option<nat>, gid: Option<nat>)
      modifies this
      ensures Value() == WithOwner(old(Value()), uid, gid) && xattr == old(xattr)
    {
      if uid.Some? { this.uid := uid.value; }
      if gid.Some? { this.gid := gid.value; }
    }

    method UpdateMode(mode: Option<nat>)
      modifies this
      ensures Value() == old(Value()).(mode := if mode.Some? then mode.value else old(this.mode)) && xattr == old(xattr)
    {
      if mode.Some? { this.mode := mode.value; }
    }

    method UpdateSize(size: Option<int>)
      modifies this
      ensures Value() == old(Value()).(size := if size.Some? then size.value else old(this.size)) && xattr == old(xattr)
    {
      if size.Some? { this.size := size.value; }
    }

    method SetIdentity(path: Path, dev: nat, ino: nat, gen: nat)
      modifies this
      ensures Value() == old(Value()).(path := path, dev := dev, ino := ino, gen := gen) && xattr == old(xattr)
    {
      this.path, this.dev, this.ino, this.gen := path, dev, ino, gen;
    }

    method SetAccess(mode: nat, uid: nat, gid: nat, nlink: int, rdev: nat)
      modifies this
      ensures Value() == old(Value()).(mode := mode, uid := uid, gid := gid, nlink := nlink, rdev := rdev)
      ensures xattr == old(xattr)
    {
      this.mode, this.uid, this.gid, this.nlink, this.rdev := mode, uid, gid, nlink, rdev;
    }

    method SetTimes(atim: Timespec, mtim: Timespec, ctim: Timespec)
      modifies this
      ensures Value() == old(Value()).(atim := atim, mtim := mtim, ctim := ctim) && xattr == old(xattr)
    {
      this.atim, this.mtim, this.ctim := atim, mtim, ctim;
    }

    method SetExtent(size: int, blksize: int, blocks: int, pad0: int, unused: seq<int>)
      modifies this
      ensures Value() == old(Value()).(size := size, blksize := blksize, blocks := blocks, pad0 := pad0,
                                       unused := unused)
      ensures xattr == old(xattr)
    {
      this.size, this.blksize, this.blocks, this.pad0, this.unused := size, blksize, blocks, pad0, unused;
    }

    /** The assignments of updateAllFromStat; x is the attribute map the record has, or a new one. */
    method CopyStat(st: Stat, stable: StableAttr, path: Path, x: XAttrMap)
      modifies this
      ensures Value() == FromStat(old(Value()), st, stable, path, x.id) && xattr == x
    {
      xattr := x;
      SetIdentity(path, st.dev, stable.ino, stable.gen);
      SetAccess(st.mode, st.uid, st.gid, st.nlink, st.rdev);
      SetTimes(st.atim, st.mtim, st.ctim);
      SetExtent(st.size, st.blksize, st.blocks, st.pad0, st.unused);
    }

    /** Name, owner, mode and attribute map come from the old record, the rest from fstat. */
    method MigrateRegular(was: MapEntryMetadata, st: Stat)
      modifies this
      ensures Value() == StoreModel.MigrateRegular(old(was.Value()), st) && xattr == old(was.xattr)
    {
      xattr := was.xattr;
      SetIdentity(was.path, was.dev, was.ino, was.gen);
      SetAccess(was.mode, was.uid, was.gid, st.nlink, st.rdev);
      SetTimes(st.atim, st.mtim, was.ctim);
      SetExtent(st.size, st.blksize, st.blocks, st.pad0, st.unused);
    }

    method MigrateDuplicate(was: MapEntryMetadata, st: Stat)
      modifies this
      ensures Value() == StoreModel.MigrateDuplicate(old(was.Value()), old(Value()), st) && xattr == old(was.xattr)
    {
      xattr := was.xattr;
      SetIdentity(was.path, was.dev, ino, gen);
      SetAccess(was.mode, was.uid, was.gid, was.nlink, was.rdev);
      SetTimes(was.atim, mtim, was.ctim);
      SetExtent(st.size, st.blksize, st.blocks, was.pad0, was.unused);
    }

    method InitialiseDuplicate(spare: Stat, link: Stat, path: Path, uid: nat, gid: nat, attrs: XAttrMap)
      modifies this
      ensures Value() == FromSpare(old(Value()), spare, link, path, uid, gid, attrs.id) && xattr == attrs
    {
      xattr := attrs;
      SetIdentity(path, spare.dev, ino, gen);
      SetAccess(spare.mode, uid, gid, spare.nlink, spare.rdev);
      SetTimes(spare.atim, spare.mtim, spare.ctim);
      SetExtent(link.size, link.blksize, link.blocks, spare.pad0, spare.unused);
    }

    /** A struct assignment copies every field, the pointer to the attribute map included. */
    method CopyFrom(was: MapEntryMetadata)
      modifies this
      ensures Value() == old(was.Value()) && xattr == old(was.xattr)
    {
      xattr := was.xattr;
      SetIdentity(was.path, was.dev, was.ino, was.gen);
      SetAccess(was.mode, was.uid, was.gid, was.nlink, was.rdev);
      SetTimes(was.atim, was.mtim, was.ctim);
      SetExtent(was.size, was.blksize, was.blocks, was.pad0, was.unused);
    }

    method FillAttr() returns (out: Attr)
      ensures out == Session.FillAttr(Value())
    {
      out := Attr(ino, size % U64, blocks % U64, atim.sec % U64, atim.nsec % U32, mtim.sec % U64, mtim.nsec % U32,
                  ctim.sec % U64, ctim.nsec % U32, mode, nlink % U32, uid, gid, rdev % U32, blksize % U32);
    }

    ghost function Value(): Meta
      reads this
    {
      Meta(path, dev, ino, gen, nlink, mode, uid, gid, pad0, rdev, size, blksize, blocks, atim, mtim, ctim, unused,
           if xattr == null then None else Some(xattr.id))
    }
  }

  class MapEntry {
    ghost const hash: Hash
    var referenceCount: nat
    var entryList: map<nat, MapEntryMetadata>
    var indexCounter: nat

    constructor (ghost hash: Hash)
      ensures this.hash == hash && Ties(Entry(0, map[], 0))
    {
      this.hash, referenceCount, entryList, indexCounter := hash, 0, map[], 0;
    }

    /** Put a record under the next reference and count it. */
    method Add(ref: nat, m: MapEntryMetadata)
      requires ref == Inc(indexCounter, U64)
      modifies this
      ensures entryList == old(entryList)[ref := m] && indexCounter == ref
        && referenceCount == Inc(old(referenceCount), U32)
    {
      entryList := entryList[ref := m];
      indexCounter := ref;
      referenceCount := Inc(referenceCount, U32);
    }

    /** Take a record out and count it off. */
    method Delete(ref: nat)
      modifies this
      ensures entryList == old(entryList) - {ref} && indexCounter == old(indexCounter)
      ensures referenceCount == Dec(old(referenceCount), U32)
    {
      entryList := entryList - {ref};
      referenceCount := Dec(referenceCount, U32);
    }

    ghost predicate Ties(v: Entry)
      reads this
    {
      referenceCount == v.refCount && indexCounter == v.counter && entryList.Keys == v.list.Keys
    }
  }

  class PersistentNode {
    ghost const home: Path
    var stable: StableAttr
    var mode: nat
    var isDir: bool
    var contentHash: Hash
    var refNum: nat

    constructor (ghost home: Path, stable: StableAttr, mode: nat, isDir: bool, contentHash: Hash, refNum: nat)
      ensures this.home == home && Value() == NodeInfo(stable, mode, isDir, contentHash, refNum)
    {
      this.home, this.stable, this.mode, this.isDir := home, stable, mode, isDir;
      this.contentHash, this.refNum := contentHash, refNum;
    }

    method Update(isDir: Option<bool>, stable: Option<StableAttr>, mode: Option<nat>, h: Option<Hash>, r: Option<nat>)
      modifies this
      ensures Value() == WithInfo(old(Value()), isDir, stable, mode, h, r)
    {
      if isDir.Some? { this.isDir := isDir.value; }
      if stable.Some? { this.stable := stable.value; }
      if mode.Some? { this.mode := mode.value; }
      if h.Some? { contentHash := h.value; }
      if r.Some? { refNum := r.value; }
    }

    ghost function Value(): NodeInfo
      reads this
    {
      NodeInfo(stable, mode, isDir, contentHash, refNum)
    }
  }

  /** Overwrite the optional parts of a node entry. */
  function WithInfo(n: NodeInfo, isDir: Option<bool>, stable: Option<StableAttr>, mode: Option<nat>, h: Option<Hash>,
                    r: Option<nat>): NodeInfo
  {
    NodeInfo(if stable.Some? then stable.value else n.stable, if mode.Some? then mode.value else n.mode,
             if isDir.Some? then isDir.value else n.isDir, if h.Some? then h.value else n.hash,
             if r.Some? then r.value else n.ref)
  }

  lemma PutAt(s: Store, l: Loc, m: Meta, l': Loc)
    ensures MetaAt(Put(s, l, m), l') == if l' == l && MetaAt(s, l).Some? then Some(m) else MetaAt(s, l')
  {
  }

  /** s' has the entries of s, with the same counters and references. */
  ghost predicate SameShape(s: Store, s': Store) {
    && s'.(files := s.files, dirs := s.dirs) == s && s'.dirs.Keys == s.dirs.Keys && s'.files.Keys == s.files.Keys
    && forall h | h in s.files ::
         s'.files[h].list.Keys == s.files[h].list.Keys && s'.files[h].refCount == s.files[h].refCount
         && s'.files[h].counter == s.files[h].counter
  }

  lemma PutShape(s: Store, l: Loc, m: Meta)
    ensures SameShape(s, Put(s, l, m))
  {
  }

  /** One more record under h. */
  function Added(s: Store, h: Hash): Store
    requires h in s.files
  {
    s.(files := s.files[h := AddMeta(s.files[h])])
  }

  lemma AddedAt(s: Store, h: Hash, l: Loc)
    requires h in s.files
    ensures MetaAt(Added(s, h), l) == if l == FileLoc(h, NextRef(s.files[h])) then Some(DEFAULT_META) else MetaAt(s, l)
  {
  }

  /** One record less, and its entry too when the count reaches zero. */
  function Removed(s: Store, h: Hash, r: nat): Store {
    s.(files := Remove(s.files, h, r))
  }

  /** The first half of that. */
  function Dropped(s: Store, h: Hash, r: nat): Store
    requires h in s.files
  {
    s.(files := s.files[h := RemoveRef(s.files[h], r)])
  }

  lemma RemovedIsDropped(s: Store, h: Hash, r: nat)
    requires h != ZERO && r != 0 && Live(s.files, h, r)
    ensures Removed(s, h, r) == if RemoveRef(s.files[h], r).refCount == 0
                                then Dropped(s, h, r).(files := Dropped(s, h, r).files - {h})
                                else Dropped(s, h, r)
  {
    assert s.files[h := RemoveRef(s.files[h], r)] - {h} == s.files - {h};
  }

  lemma DroppedAt(s: Store, h: Hash, r: nat, l: Loc)
    requires h in s.files
    ensures MetaAt(Dropped(s, h, r), l) == if l == FileLoc(h, r) then None else MetaAt(s, l)
  {
  }

  /** A path the sweep has found missing. */
  datatype Doomed = Doomed(path: Path, isDir: bool, hash: Hash, ref: nat)

  function PathsOf(ds: seq<Doomed>): seq<Path> { seq(|ds|, i requires 0 <= i < |ds| => ds[i].path) }

  function DoomedAt(s: Store, p: Path): Doomed
    requires p in s.nodes
  {
    Doomed(p, s.nodes[p].isDir, s.nodes[p].hash, s.nodes[p].ref)
  }

  lemma PathsOfAppend(ds: seq<Doomed>, d: Doomed)
    ensures PathsOf(ds + [d]) == PathsOf(ds) + [d.path]
    ensures (set p | p in PathsOf(ds + [d])) == (set p | p in PathsOf(ds)) + {d.path}
  {
    assert PathsOf(ds + [d]) == PathsOf(ds) + [d.path];
  }

  /** The object map `files` stands for the entries of v: counters and references, not yet the records. */
  ghost predicate EntriesIn(files: map<Hash, MapEntry>, v: Files, entries: set<MapEntry>)
    reads entries
  {
    && files.Keys == v.Keys
    && forall h | h in files :: files[h] in entries && files[h].hash == h && files[h].Ties(v[h])
  }

  /** x is the record whose home is l, and unless it is m it has the value v. */
  ghost predicate Bears(x: MapEntryMetadata, l: Loc, v: Meta, m: MapEntryMetadata?)
    reads x
  {
    x.home == l && (x != m ==> x.Value() == v)
  }

  /** Such a record is found at l. */
  ghost predicate Holds(files: map<Hash, MapEntry>, dirs: map<Path, MapEntryMetadata>, l: Loc, v: Meta,
                        records: set<MapEntryMetadata>, m: MapEntryMetadata?)
    reads files.Values, records
  {
    match l
    case FileLoc(h, r) =>
      h in files && r in files[h].entryList && files[h].entryList[r] in records && Bears(files[h].entryList[r], l, v, m)
    case DirLoc(p) => p in dirs && dirs[p] in records && Bears(dirs[p], l, v, m)
  }

  /** Every record of v is found at its home and has the value v says, m possibly excepted. */
  ghost predicate RecordsIn(files: map<Hash, MapEntry>, dirs: map<Path, MapEntryMetadata>, v: Store,
                            records: set<MapEntryMetadata>, m: MapEntryMetadata?)
    reads files.Values, records
  {
    && dirs.Keys == v.dirs.Keys
    && forall l | MetaAt(v, l).Some? :: Holds(files, dirs, l, MetaAt(v, l).value, records, m)
  }

  class MetadataStore {
    var regularFileMetadataHash: map<Hash, MapEntry>
    var dirMetadataHash: map<Path, MapEntryMetadata>
    var nodePersistenceHash: map<Path, PersistentNode>

    ghost var view: Store
    /** Everything this store ever allocated; `heap` in the order of the ids. */
    ghost var entries: set<MapEntry>
    ghost var records: set<MapEntryMetadata>
    ghost var infos: set<PersistentNode>
    ghost var heap: seq<XAttrMap>

    // ---------- what the maps stand for ----------

    ghost predicate EntriesOk(v: Store)
      reads `regularFileMetadataHash, `entries, entries
    {
      EntriesIn(regularFileMetadataHash, v.files, entries)
    }

    ghost function RecordAt(l: Loc): MapEntryMetadata?
      reads `regularFileMetadataHash, `dirMetadataHash, regularFileMetadataHash.Values
    {
      match l
      case FileLoc(h, r) =>
        if h in regularFileMetadataHash && r in regularFileMetadataHash[h].entryList
        then regularFileMetadataHash[h].entryList[r] else null
      case DirLoc(p) => if p in dirMetadataHash then dirMetadataHash[p] else null
    }

    /** The record at l, if there is one. */
    ghost function RecordsAt(l: Loc): set<MapEntryMetadata>
      reads `regularFileMetadataHash, `dirMetadataHash, regularFileMetadataHash.Values
    {
      if RecordAt(l) == null then {} else {RecordAt(l)}
    }

    /** The record m is where its home says. */
    ghost predicate Attached(m: MapEntryMetadata)
      reads `regularFileMetadataHash, `dirMetadataHash, regularFileMetadataHash.Values
    {
      RecordAt(m.home) == m
    }

    ghost predicate RecordsOk(v: Store, m: MapEntryMetadata?)
      requires EntriesOk(v)
      reads `regularFileMetadataHash, `dirMetadataHash, `entries, `records, entries, records
    {
      RecordsIn(regularFileMetadataHash, dirMetadataHash, v, records, m)
    }

    ghost predicate NodesOk(v: Store)
      reads `nodePersistenceHash, `infos, infos
    {
      && nodePersistenceHash.Keys == v.nodes.Keys
      && forall p | p in nodePersistenceHash ::
           var n := nodePersistenceHash[p];
           n in infos && n.home == p && n.Value() == v.nodes[p]
    }

    ghost predicate HeapOk(v: Store)
      reads `heap, heap
    {
      && |heap| == v.next
      && (forall i: nat :: i in v.xattrs <==> i < v.next)
      && forall i | 0 <= i < |heap| :: heap[i].id == i && heap[i].attrs == v.xattrs[i]
    }

    /** Pointers to attribute maps lead into the heap. */
    ghost predicate PointersOk()
      reads `heap, `records, records
    {
      forall m | m in records && m.xattr != null :: m.xattr.id < |heap| && heap[m.xattr.id] == m.xattr
    }

    /** The maps stand for v, except for the value of m. */
    ghost predicate StandsFor(v: Store, m: MapEntryMetadata?)
      reads this, entries, records, infos, heap
    {
      EntriesOk(v) && RecordsOk(v, m) && NodesOk(v) && HeapOk(v) && PointersOk()
    }

    /** There is a store that the maps stand for, and the view is it. */
    ghost predicate Valid()
      reads this, entries, records, infos, heap
    {
      exists v :: StandsFor(v, null) && view == v
    }

    constructor ()
      ensures Valid() && view == INIT.meta
      ensures entries == {} && records == {} && infos == {} && heap == []
    {
      regularFileMetadataHash, dirMetadataHash, nodePersistenceHash := map[], map[], map[];
      view, entries, records, infos, heap := INIT.meta, {}, {}, {}, [];
      new;
      assert StandsFor(view, null);
    }

    ghost method Install(now: Store)
      requires StandsFor(now, null)
      modifies `view
      ensures Valid() && view == now
    {
      view := now;
      assert StandsFor(view, null);
    }

    ghost method Adopt(m: MapEntryMetadata)
      requires Valid() && (m.xattr == null || (m.xattr.id < |heap| && heap[m.xattr.id] == m.xattr))
      modifies `records
      ensures Valid() && records == old(records) + {m}
    {
      records := records + {m};
      assert StandsFor(view, null);
    }

    // ---------- assigning to a record in place ----------

    /** What the store becomes when the record m is given the value x; nothing, once m has been removed. */
    ghost function Assigned(m: MapEntryMetadata, x: Meta): Store
      reads this, regularFileMetadataHash.Values
    {
      if Attached(m) then Put(view, m.home, x) else view
    }

    lemma Reassigned(v: Store, m: MapEntryMetadata, now: Store)
      requires StandsFor(v, m) && Attached(m) && SameShape(v, now)
      requires forall l :: MetaAt(now, l) == if l == m.home && MetaAt(v, l).Some? then Some(m.Value()) else MetaAt(v, l)
      ensures StandsFor(now, null)
    {
    }

    lemma Detached(v: Store, m: MapEntryMetadata)
      requires StandsFor(v, m) && !Attached(m)
      ensures StandsFor(v, null)
    {
    }

    /** The view catches up with what has been assigned to m. */
    ghost method CatchUp(m: MapEntryMetadata)
      requires StandsFor(view, m)
      modifies `view
      ensures Valid() && view == old(Assigned(m, m.Value()))
    {
      if Attached(m) {
        var now := Put(view, m.home, m.Value());
        PutShape(view, m.home, m.Value());
        forall l
          ensures MetaAt(now, l) == if l == m.home && MetaAt(view, l).Some? then Some(m.Value()) else MetaAt(view, l)
        {
          PutAt(view, m.home, m.Value(), l);
        }
        Reassigned(view, m, now);
        Install(now);
      } else {
        Detached(view, m);
      }
    }

    method UpdateTime(m: MapEntryMetadata, atim: Option<Timespec>, mtim: Option<Timespec>, ctim: Option<Timespec>)
      requires Valid() && m in records
      modifies m, `view
      ensures Valid() && m.xattr == old(m.xattr)
      ensures view == old(Assigned(m, WithTime(m.Value(), atim, mtim, ctim)))
    {
      m.UpdateTime(atim, mtim, ctim);
      CatchUp(m);
    }

    method UpdateOwner(m: MapEntryMetadata, uid: Option<nat>, gid: Option<nat>)
      requires Valid() && m in records
      modifies m, `view
      ensures Valid() && m.xattr == old(m.xattr)
      ensures view == old(Assigned(m, WithOwner(m.Value(), uid, gid)))
    {
      m.UpdateOwner(uid, gid);
      CatchUp(m);
    }

    method UpdateMode(m: MapEntryMetadata, mode: nat)
      requires Valid() && m in records
      modifies m, `view
      ensures Valid() && m.xattr == old(m.xattr)
      ensures view == old(Assigned(m, m.Value().(mode := mode)))
    {
      m.UpdateMode(Some(mode));
      CatchUp(m);
    }

    method UpdateSize(m: MapEntryMetadata, size: int)
      requires Valid() && m in records
      modifies m, `view
      ensures Valid() && m.xattr == old(m.xattr)
      ensures view == old(Assigned(m, m.Value().(size := size)))
    {
      m.UpdateSize(Some(size));
      CatchUp(m);
    }

    method MigrateRegularFileMetadata(was: MapEntryMetadata, m: MapEntryMetadata, st: Stat)
      requires Valid() && was in records && m in records
      modifies m, `view
      ensures Valid()
      ensures view == old(Assigned(m, MigrateRegular(was.Value(), st)))
    {
      m.MigrateRegular(was, st);
      CatchUp(m);
    }

    method MigrateDuplicateFileMetadata(was: MapEntryMetadata, m: MapEntryMetadata, st: Stat)
      requires Valid() && was in records && m in records
      modifies m, `view
      ensures Valid()
      ensures view == old(Assigned(m, MigrateDuplicate(was.Value(), m.Value(), st)))
    {
      m.MigrateDuplicate(was, st);
      CatchUp(m);
    }

    lemma NewMapKeeps(v: Store, now: Store)
      requires EntriesOk(v) && RecordsOk(v, null) && NodesOk(v) && now == NewXAttrs(v)
      ensures EntriesOk(now) && RecordsOk(now, null) && NodesOk(now)
    {
      forall l ensures MetaAt(now, l) == MetaAt(v, l) {
      }
    }

    lemma HeapGrown(v: Store, before: seq<XAttrMap>, x: XAttrMap)
      requires EntriesOk(v) && RecordsOk(v, null) && NodesOk(v)
      requires heap == before + [x] && x.attrs == map[] && x.id == |before| == v.next
      requires forall i: nat :: i in v.xattrs <==> i < v.next
      requires forall i | 0 <= i < |before| :: before[i].id == i && before[i].attrs == v.xattrs[i]
      requires forall m | m in records && m.xattr != null :: m.xattr.id < |before| && before[m.xattr.id] == m.xattr
      ensures StandsFor(NewXAttrs(v), null)
    {
      NewMapKeeps(v, NewXAttrs(v));
      assert HeapOk(NewXAttrs(v));
    }

    /** `make(map[string][]byte)` */
    method NewAttrMap() returns (x: XAttrMap)
      requires Valid()
      modifies `heap, `view
      ensures Valid() && fresh(x) && view == NewXAttrs(old(view)) && heap == old(heap) + [x] && x.id == old(view.next)
    {
      x := new XAttrMap(view.next);
      Push(x);
    }

    ghost method Push(x: XAttrMap)
      requires Valid() && x.attrs == map[] && x.id == view.next
      modifies `heap, `view
      ensures Valid() && view == NewXAttrs(old(view)) && heap == old(heap) + [x]
    {
      ghost var before := heap;
      heap := heap + [x];
      HeapGrown(view, before, x);
      Install(NewXAttrs(view));
    }

    method CopyStat(m: MapEntryMetadata, st: Stat, stable: StableAttr, path: Path, x: XAttrMap)
      requires Valid() && m in records && x in heap
      modifies m, `view
      ensures Valid()
      ensures view == old(Assigned(m, FromStat(m.Value(), st, stable, path, x.id)))
    {
      m.CopyStat(st, stable, path, x);
      CatchUp(m);
    }

    method UpdateAllFromStat(m: MapEntryMetadata, st: Stat, stable: StableAttr, path: Path)
      requires Valid() && m in records && Attached(m)
      modifies m, `view, `heap
      ensures Valid() && old(heap) <= heap && fresh(set x | x in heap[|old(heap)|..])
      ensures view == StoreModel.UpdateAllFromStat(old(view), m.home, st, stable, path)
    {
      if m.xattr == null {
        var x := NewAttrMap();
        CopyStat(m, st, stable, path, x);
      } else {
        CopyStat(m, st, stable, path, m.xattr);
      }
    }

    method InitialiseNewDuplicateFileMetadata(m: MapEntryMetadata, spare: Stat, link: Stat, path: Path, uid: nat,
                                              gid: nat)
      requires Valid() && m in records && Attached(m)
      modifies m, `view, `heap
      ensures Valid() && old(heap) <= heap && fresh(set x | x in heap[|old(heap)|..])
      ensures var x := old(view).next;
        view == Put(NewXAttrs(old(view)), m.home, FromSpare(old(m.Value()), spare, link, path, uid, gid, x))
    {
      hide Live, RecordsIn;
      var x := NewAttrMap();
      InitialiseWith(m, spare, link, path, uid, gid, x);
    }

    method InitialiseWith(m: MapEntryMetadata, spare: Stat, link: Stat, path: Path, uid: nat, gid: nat, x: XAttrMap)
      requires Valid() && m in records && x in heap
      modifies m, `view
      ensures Valid() && view == old(Assigned(m, FromSpare(m.Value(), spare, link, path, uid, gid, x.id)))
    {
      m.InitialiseDuplicate(spare, link, path, uid, gid, x);
      CatchUp(m);
    }

    // ---------- regularFileMetadataHash ----------

    method IsContentHashUnique(h: Hash) returns (unique: bool)
      requires Valid()
      ensures unique == IsUnique(view.files, h)
    {
      unique := h == ZERO || h !in regularFileMetadataHash;
    }

    method LookupRegularFileMetadata(h: Hash, r: nat) returns (err: Errno, m: MapEntryMetadata?)
      requires Valid()
      ensures err == (if Live(view.files, h, r) then OK else ENODATA)
      ensures m == RecordAt(FileLoc(h, r)) && (m != null <==> err == OK)
      ensures m != null ==> m in records && m.home == FileLoc(h, r) && Lookup(view.files, h, r) == Some(m.Value())
    {
      err, m := ENODATA, null;
      if h in regularFileMetadataHash {
        var e := regularFileMetadataHash[h];
        if r in e.entryList {
          assert MetaAt(view, FileLoc(h, r)).Some?;
          err, m := OK, e.entryList[r];
        }
      }
    }

    method LookupRegularFileEntry(h: Hash) returns (err: Errno, e: MapEntry?)
      requires Valid()
      ensures err == if h in view.files then OK else ENODATA
      ensures if h in view.files then e != null && Listed(e) && e.hash == h else e == null
    {
      err, e := ENODATA, null;
      if h in regularFileMetadataHash {
        err, e := OK, regularFileMetadataHash[h];
      }
    }

    /** e is in the map, under its hash. */
    ghost predicate Listed(e: MapEntry)
      reads `regularFileMetadataHash, `entries
    {
      e in entries && e.hash in regularFileMetadataHash && regularFileMetadataHash[e.hash] == e
    }

    /** The scan of the code decrements an unsigned counter under a guard that always holds, so a hit is the
        only way out; one at or below the counter keeps it from wrapping around. */
    method RetrieveRecent(e: MapEntry) returns (m: MapEntryMetadata?)
      requires Valid() && Listed(e)
      requires e.indexCounter == 0 || exists r :: r in e.entryList && r <= e.indexCounter
      ensures match Recent(view.files[e.hash])
        case None => m == null
        case Some(v) =>
          m != null && m in records && Attached(m) && m.home.FileLoc? && m.home.h == e.hash && m.Value() == v
    {
      if e.indexCounter == 0 {
        return null;
      }
      var indx := e.indexCounter;
      while indx !in e.entryList
        invariant indx <= e.indexCounter && exists r :: r in e.entryList && r <= indx
        invariant ScanDown(view.files[e.hash].list, e.indexCounter) == ScanDown(view.files[e.hash].list, indx)
        decreases indx
      {
        indx := Dec(indx, U64);
      }
      assert MetaAt(view, FileLoc(e.hash, indx)).Some?;
      m := e.entryList[indx];
    }

    lemma EntryMade(v: Store, before: map<Hash, MapEntry>, h: Hash, e: MapEntry, now: Store)
      requires h !in before && e in entries && e.hash == h && e.Ties(Entry(0, map[], 0))
      requires EntriesIn(before, v.files, entries) && RecordsIn(before, dirMetadataHash, v, records, null)
      requires regularFileMetadataHash == before[h := e] && now == v.(files := CreateEntry(v.files, h))
      ensures EntriesOk(now) && RecordsOk(now, null)
    {
      hide Respond;
      forall l ensures MetaAt(now, l) == MetaAt(v, l) {
      }
    }

    method CreateRegularFileMapEntry(h: Hash) returns (e: MapEntry)
      requires Valid()
      modifies `regularFileMetadataHash, `entries, `view
      ensures Valid() && Listed(e) && e.hash == h && (e in old(EntryOf(h)) || fresh(e))
      ensures view == old(view).(files := CreateEntry(old(view).files, h))
    {
      if h in regularFileMetadataHash {
        return regularFileMetadataHash[h];
      }
      e := new MapEntry(h);
      InsertEntry(h, e);
    }

    method InsertEntry(h: Hash, e: MapEntry)
      requires Valid() && e.hash == h && h !in regularFileMetadataHash && e.Ties(Entry(0, map[], 0))
      modifies `regularFileMetadataHash, `entries, `view
      ensures Valid() && Listed(e) && entries == old(entries) + {e}
      ensures view == old(view).(files := CreateEntry(old(view).files, e.hash))
    {
      hide RecordsIn, NodesOk, HeapOk, PointersOk;
      ghost var before, was := regularFileMetadataHash, view;
      entries := entries + {e};
      view := view.(files := CreateEntry(view.files, h));
      regularFileMetadataHash := regularFileMetadataHash[h := e];
      EntryMade(was, before, h, e, view);
      SameNodesAndHeap(was, view);
    }

    method CreateRegularFileMetadata(e: MapEntry) returns (ref: nat, m: MapEntryMetadata)
      requires Valid() && Listed(e)
      modifies e, `records, `view
      ensures Valid() && fresh(m) && records == old(records) + {m} && Attached(m) && m.home == FileLoc(e.hash, ref)
      ensures ref == NextRef(old(view).files[e.hash]) && m.xattr == null && m.Value() == DEFAULT_META
      ensures view == Added(old(view), e.hash)
    {
      hide RecordsIn, NodesOk, HeapOk;
      ref := Inc(e.indexCounter, U64);
      m := new MapEntryMetadata(FileLoc(e.hash, ref), null);
      Adopt(m);
      AddOnlyRecord(e, ref, m);
      SameNodesAndHeap(view, Added(view, e.hash));
      Install(Added(view, e.hash));
    }

    /** The same; nodes and attribute maps do not depend on the entry. */
    method AddOnlyRecord(e: MapEntry, ref: nat, m: MapEntryMetadata)
      requires Valid() && Listed(e) && ref == Inc(e.indexCounter, U64)
      requires m in records && m.home == FileLoc(e.hash, ref) && m.Value() == DEFAULT_META
      modifies e
      ensures Attached(m) && Listed(e)
      ensures EntriesOk(Added(view, e.hash)) && RecordsOk(Added(view, e.hash), null)
      ensures NodesOk(view) && HeapOk(view) && PointersOk()
    {
      hide EntriesIn;
      AddRecord(e, ref, m);
    }

    lemma SameNodesAndHeap(v: Store, now: Store)
      requires EntriesOk(now) && RecordsOk(now, null) && NodesOk(v) && HeapOk(v) && PointersOk()
      requires now.nodes == v.nodes && now.xattrs == v.xattrs && now.next == v.next
      ensures StandsFor(now, null)
    {
    }

    method AddRecord(e: MapEntry, ref: nat, m: MapEntryMetadata)
      requires Valid() && Listed(e) && ref == Inc(e.indexCounter, U64)
      requires m in records && m.home == FileLoc(e.hash, ref) && m.Value() == DEFAULT_META
      modifies e
      ensures Attached(m) && Listed(e)
      ensures EntriesOk(Added(view, e.hash)) && RecordsOk(Added(view, e.hash), null)
    {
      e.Add(ref, m);
      forall l | MetaAt(Added(view, e.hash), l).Some?
        ensures var x := RecordAt(l);
          x != null && x in records && x.home == l && x.Value() == MetaAt(Added(view, e.hash), l).value
      {
        AddedAt(view, e.hash, l);
        if l != m.home {
          assert RecordAt(l) == old(RecordAt(l));
        }
      }
    }

    /** The entry of h, if there is one. */
    ghost function EntryOf(h: Hash): set<MapEntry>
      reads `regularFileMetadataHash
    {
      if h in regularFileMetadataHash then {regularFileMetadataHash[h]} else {}
    }

    method RemoveRegularFileMetadata(h: Hash, r: nat) returns (err: Errno)
      requires Valid()
      modifies EntryOf(h), `regularFileMetadataHash, `view
      ensures Valid() && view == Removed(old(view), h, r)
      ensures err == if h == ZERO || r == 0 || !Live(old(view).files, h, r) then ENODATA else OK
    {
      if h == ZERO || r == 0 || h !in regularFileMetadataHash || r !in regularFileMetadataHash[h].entryList {
        return ENODATA;
      }
      RemoveFound(h, r, regularFileMetadataHash[h]);
      return OK;
    }

    method RemoveFound(h: Hash, r: nat, e: MapEntry)
      requires Valid() && Listed(e) && e.hash == h != ZERO && r != 0 && r in e.entryList
      modifies e, `regularFileMetadataHash, `view
      ensures Valid() && view == Removed(old(view), h, r)
    {
      RemovedIsDropped(view, h, r);
      DropRecord(r, e);
      if e.referenceCount == 0 {
        DeleteEntry(h);
      }
    }

    method DropRecord(r: nat, e: MapEntry)
      requires Valid() && Listed(e) && r in e.entryList
      modifies e, `view
      ensures Valid() && view == Dropped(old(view), e.hash, r)
      ensures e.referenceCount == RemoveRef(old(view).files[e.hash], r).refCount
    {
      DeleteRecord(r, e);
      Install(Dropped(view, e.hash, r));
    }

    method DeleteRecord(r: nat, e: MapEntry)
      requires Valid() && Listed(e) && r in e.entryList
      modifies e
      ensures EntriesOk(Dropped(view, e.hash, r)) && RecordsOk(Dropped(view, e.hash, r), null)
      ensures e.referenceCount == RemoveRef(view.files[e.hash], r).refCount
    {
      e.Delete(r);
      forall l | MetaAt(Dropped(view, e.hash, r), l).Some?
        ensures var x := RecordAt(l);
          x != null && x in records && x.home == l && x.Value() == MetaAt(Dropped(view, e.hash, r), l).value
      {
        DroppedAt(view, e.hash, r, l);
        assert RecordAt(l) == old(RecordAt(l));
      }
    }

    lemma EntryDeleted(v: Store, before: map<Hash, MapEntry>, h: Hash)
      requires EntriesIn(before, v.files, entries) && RecordsIn(before, dirMetadataHash, v, records, null)
      requires regularFileMetadataHash == before - {h}
      ensures EntriesOk(v.(files := v.files - {h})) && RecordsOk(v.(files := v.files - {h}), null)
    {
      var now := v.(files := v.files - {h});
      forall l | MetaAt(now, l).Some? ensures MetaAt(v, l) == MetaAt(now, l) && (l.FileLoc? ==> l.h != h) {
      }
    }

    method DeleteEntry(h: Hash)
      requires Valid()
      modifies `regularFileMetadataHash, `view
      ensures Valid() && view == old(view).(files := old(view).files - {h})
    {
      ghost var before := regularFileMetadataHash;
      regularFileMetadataHash := regularFileMetadataHash - {h};
      EntryDeleted(view, before, h);
      Install(view.(files := view.files - {h}));
    }

    // ---------- nodePersistenceHash ----------

    method StoreInfo(p: Path, n: PersistentNode)
      requires Valid() && n.home == p
      modifies `nodePersistenceHash, `infos, `view
      ensures Valid() && infos == old(infos) + {n} && view == old(view).(nodes := old(view).nodes[p := n.Value()])
    {
      hide Live, RecordsIn;
      ghost var now := view.(nodes := view.nodes[p := n.Value()]);
      SameFilesAndDirs(view, now, null);
      infos := infos + {n};
      nodePersistenceHash := nodePersistenceHash[p := n];
      Install(now);
    }

    lemma SameFilesAndDirs(v: Store, now: Store, m: MapEntryMetadata?)
      requires EntriesOk(v) && RecordsOk(v, m) && now.files == v.files && now.dirs == v.dirs
      ensures EntriesOk(now) && RecordsOk(now, m)
    {
      forall l ensures MetaAt(now, l) == MetaAt(v, l) {
      }
    }

    method StoreRegFileInfo(p: Path, stable: StableAttr, mode: nat, h: Hash, r: nat)
      requires Valid()
      modifies `nodePersistenceHash, `infos, `view
      ensures Valid() && old(infos) <= infos && fresh(infos - old(infos))
      ensures view == StoreReg(old(view), p, stable, mode, h, r)
    {
      var n := new PersistentNode(p, stable, mode, false, h, r);
      StoreInfo(p, n);
    }

    method StoreDirInfo(p: Path, stable: StableAttr, mode: nat)
      requires Valid()
      modifies `nodePersistenceHash, `infos, `view
      ensures Valid() && old(infos) <= infos && fresh(infos - old(infos))
      ensures view == StoreDir(old(view), p, stable, mode)
    {
      var n := new PersistentNode(p, stable, mode, true, Zeros(64), 0);
      StoreInfo(p, n);
    }

    method RetrieveNodeInfo(p: Path) returns (err: Errno, info: Option<NodeInfo>)
      requires Valid()
      ensures info == Get(view.nodes, p) && err == if p in view.nodes then OK else ENODATA
    {
      if p !in nodePersistenceHash {
        return ENODATA, None;
      }
      var n := nodePersistenceHash[p];
      return OK, Some(NodeInfo(n.stable, n.mode, n.isDir, n.contentHash, n.refNum));
    }

    method RemoveNodeInfo(p: Path)
      requires Valid()
      modifies `nodePersistenceHash, `view
      ensures Valid() && view == RemoveNode(old(view), p)
    {
      ghost var now := RemoveNode(view, p);
      SameFilesAndDirs(view, now, null);
      nodePersistenceHash := nodePersistenceHash - {p};
      Install(now);
    }

    /** The node entry of p, if there is one. */
    ghost function InfoOf(p: Path): set<PersistentNode>
      reads `nodePersistenceHash
    {
      if p in nodePersistenceHash then {nodePersistenceHash[p]} else {}
    }

    /** Arguments that are nil in the code, None here, leave their field as it is. */
    method UpdateNodeInfo(p: Path, isDir: Option<bool>, stable: Option<StableAttr>, mode: Option<nat>, h: Option<Hash>,
                          r: Option<nat>)
      requires Valid()
      modifies InfoOf(p), `view
      ensures Valid()
      ensures view == if p !in old(view).nodes then old(view)
                      else old(view).(nodes := old(view).nodes[p := WithInfo(old(view).nodes[p], isDir, stable, mode,
                                                                             h, r)])
    {
      if p in nodePersistenceHash {
        ghost var now := view.(nodes := view.nodes[p := WithInfo(view.nodes[p], isDir, stable, mode, h, r)]);
        nodePersistenceHash[p].Update(isDir, stable, mode, h, r);
        SameFilesAndDirs(view, now, null);
        Install(now);
      }
    }

    /** The call of UpdateNodeInfo in Release. */
    method SetNodeKey(p: Path, h: Hash, r: nat, ghost m: MapEntryMetadata, ghost rec: MapEntryMetadata?)
      requires Valid()
      modifies InfoOf(p), `view
      ensures Valid() && view == SetKey(old(view), p, h, r)
      ensures Attached(m) == old(Attached(m)) && EntryOf(h) == old(EntryOf(h)) && records == old(records)
      ensures rec != null ==> rec.Value() == old(rec.Value())
    {
      UpdateNodeInfo(p, None, None, None, Some(h), Some(r));
    }

    // ---------- dirMetadataHash ----------

    lemma DirMade(v: Store, before: map<Path, MapEntryMetadata>, p: Path, m: MapEntryMetadata)
      requires EntriesOk(v) && RecordsIn(regularFileMetadataHash, before, v, records, null)
      requires m in records && m.home == DirLoc(p) && dirMetadataHash == before[p := m]
      ensures RecordsOk(v.(dirs := v.dirs[p := m.Value()]), null)
    {
      var now := v.(dirs := v.dirs[p := m.Value()]);
      forall l ensures MetaAt(now, l) == if l == m.home then Some(m.Value()) else MetaAt(v, l) {
      }
    }

    method InsertDir(p: Path, m: MapEntryMetadata)
      requires Valid() && m in records && m.home == DirLoc(p)
      modifies `dirMetadataHash, `view
      ensures Valid() && Attached(m) && view == old(view).(dirs := old(view).dirs[p := m.Value()])
    {
      ghost var before := dirMetadataHash;
      dirMetadataHash := dirMetadataHash[p := m];
      DirMade(view, before, p, m);
      Install(view.(dirs := view.dirs[p := m.Value()]));
    }

    method CreateDirEntry(p: Path) returns (m: MapEntryMetadata)
      requires Valid()
      modifies `dirMetadataHash, `records, `heap, `view
      ensures Valid() && Attached(m) && m.home == DirLoc(p) && fresh(m) && records == old(records) + {m}
      ensures old(heap) <= heap && fresh(set x | x in heap[|old(heap)|..])
      ensures view == StoreModel.CreateDirEntry(old(view), p)
    {
      var x := NewAttrMap();
      m := new MapEntryMetadata(DirLoc(p), x);
      Adopt(m);
      InsertDir(p, m);
    }

    method LookupDirMetadata(p: Path) returns (err: Errno, m: MapEntryMetadata?)
      requires Valid()
      ensures err == (if p in view.dirs then OK else ENODATA)
      ensures m == RecordAt(DirLoc(p)) && (m != null <==> err == OK)
      ensures m != null ==> m in records && m.home == DirLoc(p) && m.Value() == view.dirs[p]
    {
      err, m := ENODATA, null;
      if p in dirMetadataHash {
        assert MetaAt(view, DirLoc(p)).Some?;
        err, m := OK, dirMetadataHash[p];
      }
    }

    method UpdateDirEntry(p: Path, st: Stat, stable: StableAttr) returns (err: Errno)
      requires Valid()
      modifies RecordsAt(DirLoc(p)), `view, `heap
      ensures Valid() && old(heap) <= heap && fresh(set x | x in heap[|old(heap)|..])
      ensures view == StoreModel.UpdateAllFromStat(old(view), DirLoc(p), st, stable, p)
      ensures err == if p in old(view).dirs then OK else ENODATA
    {
      var m;
      err, m := LookupDirMetadata(p);
      if m != null {
        UpdateAllFromStat(m, st, stable, p);
      }
    }

    lemma DirGone(v: Store, before: map<Path, MapEntryMetadata>, p: Path)
      requires EntriesOk(v) && RecordsIn(regularFileMetadataHash, before, v, records, null)
      requires dirMetadataHash == before - {p}
      ensures RecordsOk(StoreModel.RemoveDirEntry(v, p), null)
    {
      forall l | MetaAt(StoreModel.RemoveDirEntry(v, p), l).Some?
        ensures MetaAt(StoreModel.RemoveDirEntry(v, p), l) == MetaAt(v, l) && l != DirLoc(p)
      {
      }
    }

    method RemoveDirEntry(p: Path)
      requires Valid()
      modifies `dirMetadataHash, `view
      ensures Valid() && view == StoreModel.RemoveDirEntry(old(view), p)
    {
      ghost var before := dirMetadataHash;
      dirMetadataHash := dirMetadataHash - {p};
      DirGone(view, before, p);
      Install(StoreModel.RemoveDirEntry(view, p));
    }

    // ---------- extended attributes ----------

    /** The attribute map x of the heap now holds `attrs`. */
    ghost method Revise(x: XAttrMap)
      requires EntriesOk(view) && RecordsOk(view, null) && NodesOk(view) && PointersOk()
      requires |heap| == view.next && (forall i: nat :: i in view.xattrs <==> i < view.next)
      requires x.id < |heap| && heap[x.id] == x
      requires forall i | 0 <= i < |heap| :: heap[i].id == i && (i != x.id ==> heap[i].attrs == view.xattrs[i])
      modifies `view
      ensures Valid() && view == old(view).(xattrs := old(view).xattrs[x.id := x.attrs])
    {
      var now := view.(xattrs := view.xattrs[x.id := x.attrs]);
      SameFilesAndDirs(view, now, null);
      Install(now);
    }

    /** Bit 0 of the flags is XATTR_CREATE, bit 1 is XATTR_REPLACE. */
    method SetCustomXAttr(m: MapEntryMetadata?, attr: Bytes, data: Bytes, flags: nat) returns (err: Errno)
      requires Valid() && (m != null ==> m in records)
      modifies heap, `view
      ensures Valid()
      ensures if m == null || m.xattr == null then err == ENODATA && view == old(view)
              else var r := SetX(old(view).xattrs[m.xattr.id], attr, data, flags);
                err == r.1 && view == old(view).(xattrs := old(view).xattrs[m.xattr.id := r.0])
    {
      hide RecordsIn;
      if m == null || m.xattr == null {
        return ENODATA;
      }
      var x := m.xattr;
      if flags % 2 == 1 {
        if attr in x.attrs {
          err := EEXIST;
        } else {
          x.attrs := x.attrs[attr := data];
          err := OK;
        }
      } else if (flags / 2) % 2 == 1 {
        if attr !in x.attrs {
          err := ENODATA;
        } else {
          x.attrs := x.attrs[attr := data];
          err := OK;
        }
      } else {
        x.attrs := x.attrs[attr := data];
        err := OK;
      }
      Revise(x);
    }

    method RemoveCustomXAttr(m: MapEntryMetadata?, attr: Bytes) returns (err: Errno)
      requires Valid() && (m != null ==> m in records)
      modifies heap, `view
      ensures Valid()
      ensures if m == null || m.xattr == null then err == ENODATA && view == old(view)
              else var r := RemoveX(old(view).xattrs[m.xattr.id], attr);
                err == r.1 && view == old(view).(xattrs := old(view).xattrs[m.xattr.id := r.0])
    {
      if m == null || m.xattr == null || attr !in m.xattr.attrs {
        return ENODATA;
      }
      m.xattr.attrs := m.xattr.attrs - {attr};
      Revise(m.xattr);
      return OK;
    }

    // ---------- InsureIntegrity ----------

    /** `present` holds the paths on which stat succeeds. A Go map is iterated in no particular order. */
    method CollectMissing(present: set<Path>) returns (doomed: seq<Doomed>)
      requires Valid()
      ensures (set p | p in PathsOf(doomed)) == view.nodes.Keys - present
      ensures forall d | d in doomed :: d.path in view.nodes && d == DoomedAt(view, d.path)
    {
      doomed := [];
      var todo := nodePersistenceHash.Keys;
      while todo != {}
        invariant todo <= view.nodes.Keys
        invariant (set p | p in PathsOf(doomed)) == view.nodes.Keys - todo - present
        invariant forall d | d in doomed :: d.path in view.nodes && d == DoomedAt(view, d.path)
      {
        var p :| p in todo;
        todo := todo - {p};
        if p !in present {
          var n := nodePersistenceHash[p];
          PathsOfAppend(doomed, Doomed(p, n.isDir, n.contentHash, n.refNum));
          doomed := doomed + [Doomed(p, n.isDir, n.contentHash, n.refNum)];
        }
      }
    }

    method Delete(d: Doomed, ghost info: NodeInfo)
      requires Valid() && d.isDir == info.isDir && d.hash == info.hash && d.ref == info.ref
      modifies this, entries
      ensures Valid() && view == SweepOne(old(view), d.path, info) && entries == old(entries)
    {
      if d.isDir {
        RemoveDirEntry(d.path);
      } else {
        var _ := RemoveRegularFileMetadata(d.hash, d.ref);
      }
      RemoveNodeInfo(d.path);
    }

    /** The deleting loop. */
    method DeleteMissing(doomed: seq<Doomed>)
      requires Valid() && forall d | d in doomed :: d.path in view.nodes && d == DoomedAt(view, d.path)
      modifies this, entries
      ensures Valid() && view == SweepInOrder(old(view), old(view).nodes, PathsOf(doomed))
    {
      hide Respond, EntriesIn;
      ghost var was := view;
      for index := 0 to |doomed|
        invariant Valid() && view == SweepInOrder(was, was.nodes, PathsOf(doomed[..index]))
        invariant entries == old(entries)
      {
        var d := doomed[index];
        assert d in doomed;
        PathsOfAppend(doomed[..index], d);
        assert doomed[..index + 1] == doomed[..index] + [d];
        Delete(d, was.nodes[d.path]);
      }
      assert doomed[..|doomed|] == doomed;
    }

    /** `order` is the order in which the map happened to be iterated. */
    method InsureIntegrity(present: set<Path>) returns (ghost order: seq<Path>)
      requires Valid()
      modifies this, entries
      ensures Valid() && (set p | p in order) == old(view).nodes.Keys - present
      ensures view == SweepInOrder(old(view), old(view).nodes, order)
      ensures FilesWF(old(view).files) ==> view == StoreRuns.InsureIntegrity(old(view), present)
    {
      var doomed := CollectMissing(present);
      order := PathsOf(doomed);
      if FilesWF(view.files) {
        SweepOrderIrrelevant(view, present, order);
      }
      DeleteMissing(doomed);
    }

    // ---------- records that may or may not have been found ----------

    lemma FoundAt(l: Loc)
      requires Valid()
      ensures var m := RecordAt(l);
        if MetaAt(view, l).None? then m == null
        else m != null && m in records && m.home == l && m.Value() == MetaAt(view, l).value
    {
    }

    /** m is what a lookup at l returned. */
    method Stamp(m: MapEntryMetadata?, ghost l: Loc, atim: Option<Timespec>, mtim: Option<Timespec>,
                 ctim: Option<Timespec>)
      requires Valid() && m == RecordAt(l)
      modifies m, `view
      ensures Valid() && view == StoreModel.UpdateTime(old(view), l, atim, mtim, ctim)
    {
      FoundAt(l);
      if m != null {
        UpdateTime(m, atim, mtim, ctim);
      }
    }

    method SetOwner(m: MapEntryMetadata?, ghost l: Loc, owner: Owner)
      requires Valid() && m == RecordAt(l)
      modifies m, `view
      ensures Valid() && view == Session.SetOwner(old(view), l, owner)
    {
      FoundAt(l);
      if m != null {
        UpdateOwner(m, Some(owner.uid), Some(owner.gid));
      }
    }

    /** `*m = *was` */
    method CopyRecord(was: MapEntryMetadata, m: MapEntryMetadata)
      requires Valid() && was in records && m in records
      modifies m, `view
      ensures Valid() && view == old(Assigned(m, was.Value()))
    {
      m.CopyFrom(was);
      CatchUp(m);
    }

    lemma PointsIntoHeap(m: MapEntryMetadata?)
      requires Valid() && (m != null ==> m in records)
      ensures m != null && m.xattr != null ==> m.xattr in heap && m.xattr.id in view.xattrs
    {
    }
  }
}
