/** The virtual filesystem on values: every operation of node.go that touches the maps, as a function of
    the whole state and of what the kernel answers. Calls are taken as already authorised. */
module Session {
  import opened Basics
  import opened StoreModel
  import opened StoreRuns
  import opened Underlying

  /** A `writeStore`: the digests written so far (None before the first), and who creates the file. */
  datatype WriteStore = WriteStore(buffer: Option<Bytes>, uid: nat, gid: nat)

  /** An `OptiFSFile`: the name it was opened under, whether its flags show write intent, and the key the
      path had at that moment. */
  datatype Handle = Handle(path: Path, writing: bool, hash: Hash, ref: nat)

  datatype Sys = Sys(meta: Store, fs: FS, buffers: map<Path, WriteStore>, handles: map<nat, Handle>)

  datatype Owner = Owner(uid: nat, gid: nat)

  /** What the caller sees: an error number, or a nil dereference that takes the process down. */
  datatype Reply = Err(e: Errno) | Panic

  datatype Res = Res(sys: Sys, reply: Reply)

  const INIT := Sys(Store(map[], map[], map[], map[], 0), FS(map[], map[], map[], {}, 0), map[], map[])

  // ---------- stable inode numbers ----------

  /** `%d` */
  function Decimal(n: nat): Bytes {
    if n < 10 then [(48 + n) as byte] else Decimal(n / 10) + [(48 + n % 10) as byte]
  }

  function BigEndian(s: Bytes): nat {
    if s == [] then 0 else 256 * BigEndian(s[..|s| - 1]) + s[|s| - 1] as nat
  }

  /** `getNewStableAttr`: the first eight bytes of the hash of path, device and inode number. */
  function VirtualIno(H: Hasher, p: Path, dev: nat, ino: nat): nat {
    BigEndian(H(p + Decimal(dev) + Decimal(ino))[..8])
  }

  function NewStable(H: Hasher, p: Path, st: Stat): StableAttr {
    StableAttr(VirtualIno(H, p, st.dev, st.ino), 1, st.mode)
  }

  // ---------- HandleNodeInstantiation ----------

  datatype Node = Node(meta: Store, reply: Reply, stable: StableAttr, hash: Hash, ref: nat)

  /** No entry, or a regular file that has never been released. */
  predicate Uninitialised(s: Store, p: Path, isDir: bool) {
    p !in s.nodes || (s.nodes[p].ref == 0 && s.nodes[p].hash == ZERO && !isDir)
  }

  function Instantiate(H: Hasher, s: Store, p: Path, st: Stat, isDir: bool): Node {
    if Uninitialised(s, p, isDir) then
      var stable := NewStable(H, p, st);
      if isDir then
        var s1 := CreateDirEntry(StoreDir(s, p, stable, st.mode), p);
        Node(UpdateAllFromStat(s1, DirLoc(p), st, stable, p), Err(OK), stable, ZERO, 0)
      else Node(StoreReg(s, p, stable, st.mode, ZERO, 0), Err(OK), stable, ZERO, 0)
    else
      var info := s.nodes[p];
      if info.isDir then Node(s, if p in s.dirs then Err(OK) else Err(ENODATA), info.stable, ZERO, 0)
      else if Live(s.files, info.hash, info.ref) then Node(s, Err(OK), info.stable, info.hash, info.ref)
      else Node(s, Panic, info.stable, info.hash, info.ref)
  }

  /** Modification and change time of a directory, if it has a record. */
  function TouchDir(s: Store, dir: Path, now: Timespec): Store {
    UpdateTime(s, DirLoc(dir), None, Some(now), Some(now))
  }

  // ---------- Create, Open, Write, Read ----------

  /** Remember who creates the file, unless the path has a pending buffer already. */
  function NoteCreator(s: Sys, p: Path, caller: Option<Owner>): Sys {
    if p in s.buffers || caller.None? then s
    else s.(buffers := s.buffers[p := WriteStore(None, caller.value.uid, caller.value.gid)])
  }

  /** The error of open() is lost (the code converts another variable), so a failed open is only noticed by
      fstat, and either failure is reported as success without a node. */
  function Create(H: Hasher, s: Sys, parent: Path, p: Path, fd: nat, ino: nat, writing: bool, trunc: bool,
                  caller: Option<Owner>, x: Stat, openOk: bool, fstatOk: bool, now: Timespec): Res
  {
    var s1 := NoteCreator(s, p, caller);
    var outcome := CreateOrOpen(s.fs, p, fd, ino, trunc);
    if !openOk || outcome.None? then Res(s1, Err(OK))
    else if !fstatOk then Res(s1.(fs := Close(outcome.value, fd)), Err(OK))
    else CreateNode(H, s1.(fs := outcome.value), parent, p, fd, writing, x, now)
  }

  function CreateNode(H: Hasher, s: Sys, parent: Path, p: Path, fd: nat, writing: bool, x: Stat, now: Timespec): Res
    requires fd in s.fs.fds
  {
    var n := Instantiate(H, s.meta, p, StatOf(s.fs, s.fs.fds[fd], x), false);
    if n.reply.Panic? then Res(s, Panic)
    else Res(s.(meta := TouchDir(n.meta, parent, now),
                handles := s.handles[fd := Handle(p, writing, n.hash, n.ref)]), n.reply)
  }

  function OpenFile(s: Sys, p: Path, fd: nat, writing: bool, trunc: bool, ok: bool): Res {
    var outcome := Open(s.fs, p, fd, trunc);
    if !ok || outcome.None? then Res(s, Err(Kernel))
    else
      var key := if p in s.meta.nodes then (s.meta.nodes[p].hash, s.meta.nodes[p].ref) else (ZERO, 0);
      Res(s.(fs := outcome.value, handles := s.handles[fd := Handle(p, writing, key.0, key.1)]), Err(OK))
  }

  /** The digest goes to the buffer before the bytes go to the file. */
  function Buffered(H: Hasher, s: Sys, p: Path, data: Bytes, caller: Option<Owner>): map<Path, WriteStore> {
    if p in s.buffers then
      var w := s.buffers[p];
      s.buffers[p := w.(buffer := Some(if w.buffer.Some? then w.buffer.value + H(data) else H(data)))]
    else if caller.Some? then s.buffers[p := WriteStore(Some(H(data)), caller.value.uid, caller.value.gid)]
    else s.buffers[p := WriteStore(Some(H(data)), 65534, 65534)]
  }

  /** `written` is pwrite's answer: None for an error, or how many bytes were taken. */
  function Write(H: Hasher, s: Sys, fd: nat, p: Path, data: Bytes, off: nat, caller: Option<Owner>,
                 written: Option<nat>, now: Timespec): Res
  {
    if fd !in s.handles then Res(s, Err(EBADFD))
    else
      var s1 := s.(buffers := Buffered(H, s, p, data, caller));
      var out :=
        if written.Some? && written.value <= |data| then Pwrite(s.fs, fd, off, data[..written.value]) else None;
      if out.None? then Res(s1, Err(Kernel))
      else
        var h := s.handles[fd];
        Res(s1.(fs := out.value, meta := UpdateTime(s.meta, FileLoc(h.hash, h.ref), None, Some(now), None)), Err(OK))
  }

  /** Reading renews the access time of the record that the handle's key leads to, if there is one. The bytes
      are fetched through the descriptor once this has returned. */
  function Read(s: Sys, fd: nat, now: Timespec): Res {
    if fd !in s.handles then Res(s, Err(EBADFD))
    else
      var l := FileLoc(s.handles[fd].hash, s.handles[fd].ref);
      Res(s.(meta := UpdateTime(s.meta, l, Some(now), None, None)), Err(OK))
  }

  /** A directory is opened and closed again; its record, if it has one, gets a new access time. */
  function OpenDir(s: Sys, p: Path, ok: bool, now: Timespec): Res {
    if !ok || p !in s.fs.folders then Res(s, Err(Kernel))
    else Res(s.(meta := UpdateTime(s.meta, DirLoc(p), Some(now), None, None)), Err(OK))
  }

  // ---------- Release ----------

  /** Everything a Release asks of the kernel and of FUSE. */
  datatype Env = Env(
    fstatOk: bool, linkOk: bool, lstatOk: bool, renameOk: bool, spareOk: bool, spareStatOk: bool,
    tmpUnlinkOk: bool, spareUnlinkOk: bool,
    spareFd: nat, spareIno: nat, st: Stat, spareSt: Stat, stable: StableAttr, now: Timespec)

  /** The final hash, and the owner remembered with the buffer. */
  function FinalHash(H: Hasher, s: Sys, p: Path): Hash {
    if p in s.buffers && s.buffers[p].buffer.Some? then H(s.buffers[p].buffer.value) else ZERO
  }

  function BufferOwner(s: Sys, p: Path): Owner {
    if p in s.buffers then Owner(s.buffers[p].uid, s.buffers[p].gid) else Owner(0, 0)
  }

  /** The buffer is dropped, a reference is taken, and the path's key is changed to it. */
  function Taken(s: Sys, fd: nat, p: Path, h: Hash): Sys {
    s.(buffers := s.buffers - {p}, handles := s.handles - {fd},
       meta := SetKey(s.meta.(files := Claim(s.meta.files, h)), p, h, ClaimedRef(s.meta.files, h)))
  }

  function Release(H: Hasher, s: Sys, fd: nat, p: Path, o: Env): Res {
    if fd !in s.handles then Res(s, Err(EBADFD))
    else if !s.handles[fd].writing then Res(s.(fs := Close(s.fs, fd), handles := s.handles - {fd}), Err(OK))
    else
      var h := FinalHash(H, s, p);
      var was := Lookup(s.meta.files, s.handles[fd].hash, s.handles[fd].ref);
      var ref := ClaimedRef(s.meta.files, h);
      var rec := Recent(CreateEntry(s.meta.files, h)[h]);
      var s1 := Taken(s, fd, p, h);
      if IsUnique(s.meta.files, h) then ReleaseUnique(s1, fd, p, FileLoc(h, ref), was, BufferOwner(s, p), o)
      else ReleaseDuplicate(s1.(fs := Close(s.fs, fd)), p, h, ref, rec, was, BufferOwner(s, p), o)
  }

  /** The record of a file with new content is filled in from fstat; if that fails, the descriptor leaks. */
  function ReleaseUnique(s: Sys, fd: nat, p: Path, loc: Loc, was: Option<Meta>, owner: Owner, o: Env): Res {
    if !o.fstatOk || fd !in s.fs.fds then Res(s, Err(Kernel))
    else
      var st := StatOf(s.fs, s.fs.fds[fd], o.st);
      Res(s.(fs := Close(s.fs, fd), meta := FillUnique(s.meta, loc, st, o.stable, p, was, owner, o.now)), Err(OK))
  }

  function FillUnique(s: Store, loc: Loc, st: Stat, stable: StableAttr, p: Path, was: Option<Meta>, owner: Owner,
                      now: Timespec): Store
  {
    var s1 :=
      if was.Some? then Put(s, loc, MigrateRegular(was.value, st))
      else SetOwner(UpdateAllFromStat(s, loc, st, stable, p), loc, owner);
    UpdateTime(s1, loc, None, Some(now), Some(now))
  }

  function SetOwner(s: Store, loc: Loc, owner: Owner): Store {
    if MetaAt(s, loc).Some? then Put(s, loc, WithOwner(MetaAt(s, loc).value, Some(owner.uid), Some(owner.gid))) else s
  }

  function Forget(s: Sys, h: Hash, ref: nat): Sys {
    s.(meta := s.meta.(files := Remove(s.meta.files, h, ref)))
  }

  /** Link the recorded copy to a temporary name, look at it, and rename it over the file. */
  function ReleaseDuplicate(s: Sys, p: Path, h: Hash, ref: nat, rec: Option<Meta>, was: Option<Meta>, owner: Owner,
                            o: Env): Res {
    if rec.None? then Res(Forget(s, h, ref), Err(ENOENT))
    else
      var linked := Link(s.fs, rec.value.path, TmpPath(p));
      if !o.linkOk || linked.None? then Res(Forget(s, h, ref), Err(ENOLINK))
      else if !o.lstatOk then Res(Forget(s.(fs := Scratch(linked.value, TmpPath(p), o.tmpUnlinkOk)), h, ref),
                                  Err(ENOENT))
      else
        var renamed := Rename(linked.value, TmpPath(p), p);
        if !o.renameOk || renamed.None? then
          Res(Forget(s.(fs := Scratch(linked.value, TmpPath(p), o.tmpUnlinkOk)), h, ref), Err(EIO))
        else
          var st := StatOf(linked.value, linked.value.dir[TmpPath(p)], o.st);
          FinishDuplicate(s.(fs := renamed.value), p, h, ref, st, was, owner, o)
  }

  /** unlink() of a scratch name whose result nobody looks at. */
  function Scratch(fs: FS, p: Path, ok: bool): FS {
    if ok && Underlying.Unlink(fs, p).Some? then Underlying.Unlink(fs, p).value else fs
  }

  function FinishDuplicate(s: Sys, p: Path, h: Hash, ref: nat, st: Stat, was: Option<Meta>, owner: Owner, o: Env): Res {
    if was.Some? then
      // the record just migrated is the one removed, so the time update reaches no record
      Res(Forget(s, h, ref), Err(OK))
    else
      var outcome := OpenCreate(s.fs, SparePath(p), o.spareFd, o.spareIno);
      if !o.spareOk || outcome.None? then Res(s, Err(Kernel))
      else
        var fs1 := Close(outcome.value, o.spareFd);
        var fs2 := Scratch(fs1, SparePath(p), o.spareUnlinkOk);
        if !o.spareStatOk || SparePath(p) !in fs1.dir then Res(s.(fs := fs2), Err(Kernel))
        else
          var spare := StatOf(fs1, fs1.dir[SparePath(p)], o.spareSt);
          Res(s.(fs := fs2, meta := FillDuplicate(s.meta, FileLoc(h, ref), spare, st, p, owner, o.now)), Err(OK))
  }

  function FillDuplicate(s: Store, loc: Loc, spare: Stat, link: Stat, p: Path, owner: Owner, now: Timespec): Store {
    match MetaAt(s, loc)
    case None => s
    case Some(m) =>
      var s1 := Put(NewXAttrs(s), loc, FromSpare(m, spare, link, p, owner.uid, owner.gid, s.next));
      UpdateTime(s1, loc, None, Some(now), Some(now))
  }

  // ---------- Unlink, Rename, Link, Mkdir, Rmdir, Lookup ----------

  function Unlink(s: Sys, parent: Path, p: Path, ok: bool, now: Timespec): Res {
    var out := Underlying.Unlink(s.fs, p);
    if !ok || out.None? then Res(s, Err(Kernel))
    else Res(s.(fs := out.value, meta := TouchDir(DropPath(s.meta, p), parent, now)), Err(OK))
  }

  function DropPath(s: Store, p: Path): Store {
    if p in s.nodes then RemoveNode(s.(files := Remove(s.files, s.nodes[p].hash, s.nodes[p].ref)), p) else s
  }

  /** The map updates of a rename that the kernel has carried out. */
  function Rekey(s: Store, a: Path, b: Path): Store
    requires a in s.nodes
  {
    var info := s.nodes[a];
    var s1 := RemoveNode(s, a);
    if !info.isDir then StoreReg(s1, b, info.stable, info.mode, info.hash, info.ref)
    else
      var s2 := StoreDir(s1, b, info.stable, info.mode);
      if a !in s2.dirs then s2
      else RemoveDirEntry(CreateDirEntry(s2, b).(dirs := s2.dirs[b := s2.dirs[a]]), a)
  }

  /** What the kernel makes of a rename, if it can. */
  function Renamed(fs: FS, a: Path, b: Path, isDir: bool, exchange: bool): Option<FS> {
    if exchange then Exchange(fs, a, b) else if isDir then RenameFolder(fs, a, b) else Rename(fs, a, b)
  }

  /** The code lets names change places in the root only. */
  predicate Exchangeable(parentA: Path, parentB: Path, exchange: bool) {
    exchange ==> parentA == ROOT && parentB == ROOT
  }

  function RenameError(fs: FS, parentA: Path, a: Path, parentB: Path, b: Path, isDir: bool, exchange: bool,
                       ok: bool): Errno
  {
    if !Exchangeable(parentA, parentB, exchange) then EBUSY
    else if !ok || Renamed(fs, a, b, isDir, exchange).None? then Kernel
    else OK
  }

  /** Whatever the kernel has done, b gets a's entry and a none. A missing directory record ends the operation
      before the parents' times are touched. */
  function RenamePath(s: Sys, parentA: Path, a: Path, parentB: Path, b: Path, exchange: bool, ok: bool, now: Timespec):
    Res
  {
    if a !in s.meta.nodes then Res(s, Err(ENOENT))
    else
      var isDir := s.meta.nodes[a].isDir;
      var e := RenameError(s.fs, parentA, a, parentB, b, isDir, exchange, ok);
      if e != OK then Res(s.(meta := TouchDir(TouchDir(s.meta, parentA, now), parentB, now)), Err(e))
      else
        var fs' := Renamed(s.fs, a, b, isDir, exchange).value;
        var meta := Rekey(s.meta, a, b);
        if isDir && a !in s.meta.dirs then Res(s.(fs := fs', meta := meta), Err(OK))
        else Res(s.(fs := fs', meta := TouchDir(TouchDir(meta, parentA, now), parentB, now)), Err(OK))
  }

  /** A user's hard link shares the key of its source. */
  function HardLink(s: Sys, parent: Path, a: Path, b: Path, mode: nat, ok: bool, statOk: bool, now: Timespec): Res {
    var out := Link(s.fs, a, b);
    if !ok || out.None? then Res(s, Err(Kernel))
    else if !statOk then Res(s.(fs := Scratch(out.value, b, true)), Err(OK))
    else if a !in s.meta.nodes then Res(s.(fs := Scratch(out.value, b, true)), Err(ENOENT))
    else if b in s.meta.nodes then Res(s.(fs := Scratch(out.value, b, true)), Err(EEXIST))
    else
      var info := s.meta.nodes[a];
      Res(s.(fs := out.value,
             meta := TouchDir(StoreReg(s.meta, b, info.stable, mode, info.hash, info.ref), parent, now)), Err(OK))
  }

  /** A folder that cannot be looked at stays behind without an entry. */
  function MakeDir(H: Hasher, s: Sys, p: Path, caller: Option<Owner>, st: Stat, ok: bool, statOk: bool): Res {
    var out := Mkdir(s.fs, p);
    if !ok || out.None? then Res(s, Err(Kernel))
    else if !statOk then Res(s.(fs := out.value), Err(Kernel))
    else
      var n := Instantiate(H, s.meta, p, st, true);
      if n.reply != Err(OK) then Res(s.(fs := out.value), Panic)
      else if p !in n.meta.dirs then Res(s.(fs := out.value, meta := n.meta), Err(ENODATA))
      else
        var s1 := UpdateAllFromStat(n.meta, DirLoc(p), st, n.stable, p);
        Res(s.(fs := out.value, meta := if caller.Some? then SetOwner(s1, DirLoc(p), caller.value) else s1), Err(OK))
  }

  function RemoveDir(s: Sys, parent: Path, p: Path, ok: bool, now: Timespec): Res {
    var out := Rmdir(s.fs, p);
    if !ok || out.None? then Res(s, Err(Kernel))
    else Res(s.(fs := out.value, meta := TouchDir(RemoveNode(RemoveDirEntry(s.meta, p), p), parent, now)), Err(OK))
  }

  /** lstat() of an existing name; a folder's is whatever the kernel says. */
  function LstatOf(fs: FS, p: Path, x: Stat): Stat {
    if p in fs.dir then StatOf(fs, fs.dir[p], x) else x
  }

  function LookupNode(H: Hasher, s: Sys, p: Path, x: Stat): Node {
    Instantiate(H, s.meta, p, LstatOf(s.fs, p, x), p in s.fs.folders)
  }

  function LookupPath(H: Hasher, s: Sys, p: Path, x: Stat): Res {
    if p !in s.fs.dir && p !in s.fs.folders then Res(s, Err(Kernel))
    else Res(s.(meta := LookupNode(H, s, p, x).meta), LookupNode(H, s, p, x).reply)
  }

  // ---------- attributes ----------

  /** What FillAttr and FillAttrOut copy out, with the widths of fuse.Attr. */
  datatype Attr = Attr(
    ino: nat, size: nat, blocks: nat, atime: nat, atimensec: nat, mtime: nat, mtimensec: nat, ctime: nat,
    ctimensec: nat, mode: nat, nlink: nat, uid: nat, gid: nat, rdev: nat, blksize: nat)

  function FillAttr(m: Meta): Attr {
    Attr(m.ino, m.size % U64, m.blocks % U64, m.atim.sec % U64, m.atim.nsec % U32, m.mtim.sec % U64, m.mtim.nsec % U32,
         m.ctim.sec % U64, m.ctim.nsec % U32, m.mode, m.nlink % U32, m.uid, m.gid, m.rdev % U32, m.blksize % U32)
  }

  function StatAttr(st: Stat): Attr {
    Attr(st.ino, st.size % U64, st.blocks % U64, st.atim.sec % U64, st.atim.nsec % U32, st.mtim.sec % U64,
         st.mtim.nsec % U32, st.ctim.sec % U64, st.ctim.nsec % U32, st.mode, st.nlink % U32, st.uid, st.gid,
         st.rdev % U32, st.blksize % U32)
  }

  /** Custom metadata when there is some; otherwise lstat(), or fstat() when the request comes through an open
      handle with descriptor f. */
  function Getattr(s: Sys, p: Path, f: Option<nat>, x: Stat): Option<Attr> {
    if MetaOf(s.meta, p).Some? then Some(FillAttr(MetaOf(s.meta, p).value))
    else if f.None? then
      if p in s.fs.dir || p in s.fs.folders then Some(StatAttr(LstatOf(s.fs, p, x))) else None
    else if f.value in s.fs.fds then Some(StatAttr(StatOf(s.fs, s.fs.fds[f.value], x)))
    else None
  }

  /** `fuse.SetAttrIn`, with the outcome of looking the new owner up. */
  datatype SetAttrIn = SetAttrIn(
    mode: Option<nat>, uid: Option<nat>, gid: Option<nat>, ownerKnown: bool,
    mtime: Option<Timespec>, atime: Option<Timespec>, ctime: Option<Timespec>, size: Option<int>)

  /** `fuse.UtimeToTimespec`: an absent time becomes the UTIME_OMIT marker. */
  function UtimeToTimespec(t: Option<Timespec>): Timespec {
    if t.Some? then t.value else Timespec(0, 0x3fff_fffe)
  }

  /** SetAttributes on custom metadata. A size changes the record only. The change time is renewed only when
      the caller wants no attributes back. */
  function SetAttributes(m: Meta, i: SetAttrIn, wantsOut: bool, now: Timespec): (Meta, Errno) {
    var m1 := if i.mode.Some? then m.(mode := i.mode.value) else m;
    if (i.uid.Some? || i.gid.Some?) && !i.ownerKnown then (m1, EINVAL)
    else
      var m2 := WithOwner(m1, i.uid, i.gid);
      var m3 := if i.mtime.Some? || i.atime.Some?
                then WithTime(m2, Some(UtimeToTimespec(i.atime)), Some(UtimeToTimespec(i.mtime)),
                              Some(UtimeToTimespec(i.ctime)))
                else m2;
      var m4 := if i.size.Some? then m3.(size := i.size.value) else m3;
      (if wantsOut then m4 else WithTime(m4, None, None, Some(now)), OK)
  }

  /** Without custom metadata the request is ignored. */
  function Setattr(s: Sys, p: Path, i: SetAttrIn, wantsOut: bool, now: Timespec): Res {
    match MetaOf(s.meta, p)
    case None => Res(s, Err(OK))
    case Some(m) =>
      var r := SetAttributes(m, i, wantsOut, now);
      Res(s.(meta := Put(s.meta, LocOf(s.meta, p).value, r.0)), Err(r.1))
  }

  // ---------- extended attributes ----------

  /** The map a path's record points to. */
  function XAttrOf(s: Store, p: Path): Option<nat> {
    if MetaOf(s, p).Some? && MetaOf(s, p).value.xattr.Some? && MetaOf(s, p).value.xattr.value in s.xattrs
    then MetaOf(s, p).value.xattr else None
  }

  function XAttrMapOf(s: Store, p: Path): Option<XAttrs> {
    if XAttrOf(s, p).Some? then Some(s.xattrs[XAttrOf(s, p).value]) else None
  }

  /** `SetCustomXAttr` on a map: bit 0 is XATTR_CREATE, bit 1 is XATTR_REPLACE. */
  function SetX(m: XAttrs, attr: Bytes, data: Bytes, flags: nat): (XAttrs, Errno) {
    if flags % 2 == 1 then (if attr in m then (m, EEXIST) else (m[attr := data], OK))
    else if (flags / 2) % 2 == 1 then (if attr !in m then (m, ENODATA) else (m[attr := data], OK))
    else (m[attr := data], OK)
  }

  function RemoveX(m: XAttrs, attr: Bytes): (XAttrs, Errno) {
    if attr !in m then (m, ENODATA) else (m - {attr}, OK)
  }

  /** The root ignores its extended attributes. */
  function Setxattr(s: Sys, p: Path, attr: Bytes, data: Bytes, flags: nat): Res {
    if p == ROOT then Res(s, Err(OK))
    else
      match XAttrOf(s.meta, p)
      case None => Res(s, Err(ENODATA))
      case Some(x) =>
        var r := SetX(s.meta.xattrs[x], attr, data, flags);
        Res(s.(meta := s.meta.(xattrs := s.meta.xattrs[x := r.0])), Err(r.1))
  }

  function Removexattr(s: Sys, p: Path, attr: Bytes): Res {
    if p == ROOT then Res(s, Err(OK))
    else
      match XAttrOf(s.meta, p)
      case None => Res(s, Err(ENODATA))
      case Some(x) =>
        var r := RemoveX(s.meta.xattrs[x], attr);
        Res(s.(meta := s.meta.(xattrs := s.meta.xattrs[x := r.0])), Err(r.1))
  }

  // ---------- restart ----------

  /** The process stops, whatever it has open; some names vanish from the tree, and the next start sweeps. */
  function Recover(s: Sys, gone: set<Path>): Sys {
    var fs := RestartWithout(s.fs, gone);
    Sys(InsureIntegrity(s.meta, fs.dir.Keys + fs.folders), fs, map[], map[])
  }

  // ---------- one machine ----------

  datatype Event =
    | ECreate(parent: Path, p: Path, fd: nat, ino: nat, writing: bool, trunc: bool, caller: Option<Owner>, x: Stat,
              openOk: bool, fstatOk: bool, now: Timespec)
    | EOpen(p: Path, fd: nat, writing: bool, trunc: bool, ok: bool)
    | EWrite(fd: nat, p: Path, data: Bytes, off: nat, caller: Option<Owner>, written: Option<nat>, now: Timespec)
    | ERead(fd: nat, now: Timespec)
    | ERelease(fd: nat, p: Path, o: Env)
    | EUnlink(parent: Path, p: Path, ok: bool, now: Timespec)
    | ERename(parent: Path, p: Path, parentB: Path, b: Path, exchange: bool, ok: bool, now: Timespec)
    | ELink(parent: Path, p: Path, b: Path, mode: nat, ok: bool, statOk: bool, now: Timespec)
    | EMkdir(p: Path, caller: Option<Owner>, x: Stat, ok: bool, statOk: bool)
    | ERmdir(parent: Path, p: Path, ok: bool, now: Timespec)
    | ELookup(p: Path, x: Stat)
    | EOpendir(p: Path, ok: bool, now: Timespec)
    | ESetattr(p: Path, i: SetAttrIn, wantsOut: bool, now: Timespec)
    | ESetxattr(p: Path, attr: Bytes, data: Bytes, flags: nat)
    | ERemovexattr(p: Path, attr: Bytes)
    | ERecover(gone: set<Path>)

  ghost function Respond(H: Hasher, s: Sys, e: Event): Res {
    match e
    case ECreate(parent, p, fd, ino, writing, trunc, caller, x, openOk, fstatOk, now) =>
      Create(H, s, parent, p, fd, ino, writing, trunc, caller, x, openOk, fstatOk, now)
    case EOpen(p, fd, writing, trunc, ok) => OpenFile(s, p, fd, writing, trunc, ok)
    case EWrite(fd, p, data, off, caller, written, now) => Write(H, s, fd, p, data, off, caller, written, now)
    case ERead(fd, now) => Read(s, fd, now)
    case ERelease(fd, p, o) => Release(H, s, fd, p, o)
    case EUnlink(parent, p, ok, now) => Unlink(s, parent, p, ok, now)
    case ERename(parent, p, parentB, b, exchange, ok, now) =>
      RenamePath(s, parent, p, parentB, b, exchange, ok, now)
    case ELink(parent, p, b, mode, ok, statOk, now) => HardLink(s, parent, p, b, mode, ok, statOk, now)
    case EMkdir(p, caller, x, ok, statOk) => MakeDir(H, s, p, caller, x, ok, statOk)
    case ERmdir(parent, p, ok, now) => RemoveDir(s, parent, p, ok, now)
    case ELookup(p, x) => LookupPath(H, s, p, x)
    case EOpendir(p, ok, now) => OpenDir(s, p, ok, now)
    case ESetattr(p, i, wantsOut, now) => Setattr(s, p, i, wantsOut, now)
    case ESetxattr(p, attr, data, flags) => Setxattr(s, p, attr, data, flags)
    case ERemovexattr(p, attr) => Removexattr(s, p, attr)
    case ERecover(gone) => Res(Recover(s, gone), Err(OK))
  }

  ghost function Step(H: Hasher, s: Sys, e: Event): Sys { Respond(H, s, e).sys }

  ghost function After(H: Hasher, es: seq<Event>): Sys {
    if es == [] then INIT else Step(H, After(H, es[..|es| - 1]), es[|es| - 1])
  }
}
