/** What single calls make and renew, in any state: the entry and the record of a new node, the times of the
    directories around it, and the record of a file that is rewritten. */
module CallEffects {
  import opened Basics
  import opened StoreModel
  import opened Underlying
  import opened Session
  import opened WriteOnce
  import opened WriteOnceSteps
  import opened WriteOnceRelease
  import opened AttributeCalls

  // ---------- entries ----------

  /** The entry of a node seen for the first time: numbered by its path, its device and its inode. */
  predicate NewEntry(H: Hasher, s: Store, p: Path, dev: nat, ino: nat, mode: nat, isDir: bool) {
    && p in s.nodes && s.nodes[p].stable == StableAttr(VirtualIno(H, p, dev, ino), 1, mode) && s.nodes[p].mode == mode
    && s.nodes[p].isDir == isDir && s.nodes[p].hash == ZERO && s.nodes[p].ref == 0
  }

  /** Only p's entry differs, and, if it is a directory, its record and one new attribute map. */
  ghost predicate OnlyNode(s: Store, s': Store, p: Path) {
    && s'.files == s.files && s'.nodes - {p} == s.nodes - {p} && s'.dirs - {p} == s.dirs - {p}
    && forall x | x in s.xattrs && x < s.next :: Get(s'.xattrs, x) == Some(s.xattrs[x])
  }

  /** The record of a new directory shows what the kernel says of it, under the number in its entry, and it has no
      extended attributes. */
  predicate ShowsDirectory(s: Sys, p: Path, f: Option<nat>, y: Stat, x: Stat) {
    Getattr(s, p, f, y).Some? && p in s.meta.nodes &&
    var a := Getattr(s, p, f, y).value;
    && ShowsAnswer(a, x) && a.ino == s.meta.nodes[p].stable.ino && a.size == x.size % U64 && a.nlink == x.nlink % U32
    && XAttrMapOf(s.meta, p) == Some(map[])
  }

  /** Neither an entry nor a release. */
  predicate NeverSeen(s: Store, p: Path) { p !in s.nodes || (s.nodes[p].hash == ZERO && s.nodes[p].ref == 0) }

  /** A Lookup of a file: a missing name changes nothing, one never seen gets an entry numbered by its inode, and for
      one with a key nothing changes, while a missing record takes the process down. */
  lemma LookupOfFile(H: Hasher, s: Sys, p: Path, x: Stat)
    requires p !in s.fs.folders
    ensures var r := LookupPath(H, s, p, x);
      && (r.reply == Err(Kernel) <==> p !in s.fs.dir) && (p !in s.fs.dir ==> r.sys == s)
      && (p in s.fs.dir && NeverSeen(s.meta, p) ==>
            && r.reply == Err(OK) && NewEntry(H, r.sys.meta, p, s.fs.dev, s.fs.dir[p], x.mode, false)
            && r.sys == s.(meta := s.meta.(nodes := r.sys.meta.nodes)) && OnlyNode(s.meta, r.sys.meta, p))
      && (p in s.fs.dir && !NeverSeen(s.meta, p) && !s.meta.nodes[p].isDir ==>
            r == Res(s, if MetaOf(s.meta, p).Some? then Err(OK) else Panic))
  {
  }

  /** A Lookup of a folder: one never seen gets an entry and a record, one with a record keeps it, and without one the
      reply is ENODATA. */
  lemma LookupOfFolder(H: Hasher, s: Sys, p: Path, x: Stat, f: Option<nat>, y: Stat)
    requires p in s.fs.folders && p !in s.fs.dir
    ensures var r := LookupPath(H, s, p, x);
      && (p !in s.meta.nodes ==>
            && r.reply == Err(OK) && NewEntry(H, r.sys.meta, p, x.dev, x.ino, x.mode, true)
            && r.sys == s.(meta := r.sys.meta) && OnlyNode(s.meta, r.sys.meta, p)
            && ShowsDirectory(r.sys, p, f, y, x))
      && (p in s.meta.nodes && s.meta.nodes[p].isDir ==>
            r == Res(s, Err(if MetaOf(s.meta, p).Some? then OK else ENODATA)))
  {
    if p !in s.meta.nodes {
      NewDirectory(H, s.meta, p, x);
    }
  }

  lemma NewDirectory(H: Hasher, s: Store, p: Path, st: Stat)
    requires p !in s.nodes
    ensures var n := Instantiate(H, s, p, st, true);
      && n.reply == Err(OK) && NewEntry(H, n.meta, p, st.dev, st.ino, st.mode, true)
      && n.stable == n.meta.nodes[p].stable
      && OnlyNode(s, n.meta, p) && p in n.meta.dirs && n.meta.xattrs == s.xattrs[s.next := map[]]
      && n.meta.dirs[p] == Meta(p, st.dev, n.stable.ino, 1, st.nlink, st.mode, st.uid, st.gid, st.pad0, st.rdev,
                                st.size, st.blksize, st.blocks, st.atim, st.mtim, st.ctim, st.unused, Some(s.next))
  {
    var stable := NewStable(H, p, st);
    var s1 := CreateDirEntry(StoreDir(s, p, stable, st.mode), p);
    assert s1.dirs[p].xattr == Some(s.next);
  }

  /** Mkdir: where it fails, and that a new folder belongs to its caller and otherwise shows what the kernel says of
      it. A folder that cannot be looked at stays behind without an entry. */
  lemma MkdirShows(H: Hasher, s: Sys, p: Path, caller: Option<Owner>, x: Stat, ok: bool, statOk: bool, f: Option<nat>,
                   y: Stat)
    requires p !in s.meta.nodes
    ensures var r := MakeDir(H, s, p, caller, x, ok, statOk);
      var made := ok && p !in s.fs.dir && p !in s.fs.folders;
      && (r.reply == Err(OK) <==> made && statOk) && (r.reply == Err(OK) || r.reply == Err(Kernel))
      && r.sys == s.(fs := r.sys.fs, meta := r.sys.meta)
      && r.sys.fs == s.fs.(folders := if made then s.fs.folders + {p} else s.fs.folders)
      && (r.reply != Err(OK) ==> r.sys.meta == s.meta)
      && (r.reply == Err(OK) ==>
            var owner := if caller.Some? then caller.value else Owner(x.uid, x.gid);
            && NewEntry(H, r.sys.meta, p, x.dev, x.ino, x.mode, true) && OnlyNode(s.meta, r.sys.meta, p)
            && ShowsDirectory(r.sys, p, f, y, x.(uid := owner.uid, gid := owner.gid)))
  {
    if ok && p !in s.fs.dir && p !in s.fs.folders && statOk {
      hide NewEntry, OnlyNode, ShowsDirectory;
      MadeDirectory(H, s, p, caller, x, f, y);
    }
  }

  /** Where MakeDir fills the record in and sets the owner. */
  lemma FilledIn(s: Store, p: Path, st: Stat, stable: StableAttr, caller: Option<Owner>)
    requires p in s.dirs
    ensures var t := UpdateAllFromStat(s, DirLoc(p), st, stable, p);
      var s' := if caller.Some? then SetOwner(t, DirLoc(p), caller.value) else t;
      var owner, was := if caller.Some? then caller.value else Owner(st.uid, st.gid), s.dirs[p].xattr;
      && s'.nodes == s.nodes && s'.files == s.files && p in s'.dirs && s'.dirs - {p} == s.dirs - {p}
      && s'.dirs[p] == FromStat(s.dirs[p], st.(uid := owner.uid, gid := owner.gid), stable, p,
                                if was.Some? then was.value else s.next)
      && s'.xattrs == if was.Some? then s.xattrs else s.xattrs[s.next := map[]]
  {
    var m := FromStat(s.dirs[p], st, stable, p, if s.dirs[p].xattr.Some? then s.dirs[p].xattr.value else s.next);
    MetaAfterPut(if s.dirs[p].xattr.Some? then s else NewXAttrs(s), DirLoc(p), m);
  }

  lemma MadeDirectory(H: Hasher, s: Sys, p: Path, caller: Option<Owner>, x: Stat, f: Option<nat>, y: Stat)
    requires p !in s.meta.nodes && Mkdir(s.fs, p).Some?
    ensures var r := MakeDir(H, s, p, caller, x, true, true);
      var owner := if caller.Some? then caller.value else Owner(x.uid, x.gid);
      && r.reply == Err(OK) && r.sys == s.(fs := Mkdir(s.fs, p).value, meta := r.sys.meta)
      && NewEntry(H, r.sys.meta, p, x.dev, x.ino, x.mode, true) && OnlyNode(s.meta, r.sys.meta, p)
      && ShowsDirectory(r.sys, p, f, y, x.(uid := owner.uid, gid := owner.gid))
  {
    var n, r := Instantiate(H, s.meta, p, x, true), MakeDir(H, s, p, caller, x, true, true);
    NewDirectory(H, s.meta, p, x);
    hide Instantiate;
    FilledIn(n.meta, p, x, n.stable, caller);
    var m := r.sys.meta.dirs[p];
    assert MetaOf(r.sys.meta, p) == Some(m);
    hide MakeDir, SetOwner, UpdateAllFromStat;
    assert OnlyNode(s.meta, r.sys.meta, p);
  }

  /** Mkdir of a name whose entry has stayed behind: a directory's record is filled in anew and keeps its attribute
      map, a missing record takes the process down, and the record of a file is not that of a folder. */
  lemma MkdirOverEntry(H: Hasher, s: Sys, p: Path, caller: Option<Owner>, x: Stat, f: Option<nat>, y: Stat)
    requires p in s.meta.nodes && Mkdir(s.fs, p).Some?
    ensures var r, was := MakeDir(H, s, p, caller, x, true, true), MetaOf(s.meta, p);
      && (r.reply == Panic <==> was.None?)
      && (r.reply == Err(ENODATA) <==> was.Some? && p !in s.meta.dirs)
      && (r.reply == Err(OK) <==> was.Some? && p in s.meta.dirs)
      && (r.reply != Err(OK) ==> r.sys.meta == s.meta)
      && (r.reply == Err(OK) && s.meta.nodes[p].isDir ==>
            var owner := if caller.Some? then caller.value else Owner(x.uid, x.gid);
            && r.sys.meta.nodes == s.meta.nodes && Getattr(r.sys, p, f, y).Some? &&
            var a := Getattr(r.sys, p, f, y).value;
            && ShowsAnswer(a, x.(uid := owner.uid, gid := owner.gid)) && a.ino == s.meta.nodes[p].stable.ino
            && (XAttrMapOf(s.meta, p).Some? ==> XAttrMapOf(r.sys.meta, p) == XAttrMapOf(s.meta, p)))
  {
    hide Mkdir, UpdateAllFromStat, SetOwner;
    if p in s.meta.dirs {
      FilledIn(s.meta, p, x, s.meta.nodes[p].stable, caller);
    }
  }

  /** Rmdir: the folder, its entry and its record go, if the kernel agrees. */
  lemma RmdirRemoves(s: Sys, parent: Path, p: Path, ok: bool, now: Timespec)
    ensures var r := RemoveDir(s, parent, p, ok, now);
      && (r.reply == Err(OK) <==> ok && p in s.fs.folders) && (r.reply == Err(OK) || r.reply == Err(Kernel))
      && (r.reply != Err(OK) ==> r.sys == s)
      && (r.reply == Err(OK) ==>
            && r.sys.fs == s.fs.(folders := s.fs.folders - {p}) && r.sys.handles == s.handles
            && r.sys.buffers == s.buffers && r.sys.meta.nodes == s.meta.nodes - {p}
            && r.sys.meta.dirs.Keys == s.meta.dirs.Keys - {p} && r.sys.meta.files == s.meta.files
            && r.sys.meta.xattrs == s.meta.xattrs)
  {
  }

  // ---------- files ----------

  /** The name leads to an inode, its own if it was free, empty if it was or is cut off, with a descriptor on it. */
  ghost predicate CreatedIn(fs: FS, fs': FS, p: Path, fd: nat, ino: nat, trunc: bool) {
    && fs'.dir == (if p in fs.dir then fs.dir else fs.dir[p := ino]) && fs'.folders == fs.folders && fs'.dev == fs.dev
    && fs'.fds == fs.fds[fd := fs'.dir[p]]
    && At(fs', fs'.dir[p]).bytes == (if p !in fs.dir || trunc then [] else At(fs, fs.dir[p]).bytes)
    && At(fs', fs'.dir[p]).nlink == (if p in fs.dir then At(fs, fs.dir[p]).nlink else 1)
    && forall i | i != fs'.dir[p] :: Get(fs'.inodes, i) == Get(fs.inodes, i)
  }

  lemma CreateOrOpenMakes(fs: FS, p: Path, fd: nat, ino: nat, trunc: bool)
    ensures CreateOrOpen(fs, p, fd, ino, trunc).None? <==> p in fs.folders
    ensures p !in fs.folders ==> CreatedIn(fs, CreateOrOpen(fs, p, fd, ino, trunc).value, p, fd, ino, trunc)
  {
  }

  /** The path has a handle for what it is opened with, and an entry numbered by inode `ino` unless it has a key; the
      handle takes that key along. */
  ghost predicate NodeMade(H: Hasher, s: Store, handles: map<nat, Handle>, s': Sys, p: Path, fd: nat, ino: nat,
                           writing: bool, mode: nat) {
    && fd in s'.handles && s'.handles - {fd} == handles - {fd}
    && s'.handles[fd].path == p && s'.handles[fd].writing == writing
    && (if NeverSeen(s, p) then
          NewEntry(H, s'.meta, p, s'.fs.dev, ino, mode, false) && s'.handles[fd].hash == ZERO && s'.handles[fd].ref == 0
        else
          && s'.meta.nodes == s.nodes
          && s'.handles[fd].hash == s.nodes[p].hash && s'.handles[fd].ref == s.nodes[p].ref)
    && s'.meta.nodes - {p} == s.nodes - {p} && s'.meta.files == s.files && s'.meta.xattrs == s.xattrs
  }

  /** Folders have no key. */
  predicate FolderWithoutKey(s: Store, p: Path) { p in s.nodes && s.nodes[p].isDir ==> NeverSeen(s, p) }

  /** Create: the file, its entry and its handle. Where open() fails, the reply is OK and at most a buffer has been
      made; where fstat() fails, the reply is OK and the file is left without an entry, a handle or a descriptor. */
  lemma CreateMakes(H: Hasher, s: Sys, parent: Path, p: Path, fd: nat, ino: nat, writing: bool, trunc: bool,
                    caller: Option<Owner>, x: Stat, openOk: bool, fstatOk: bool, now: Timespec)
    requires FolderWithoutKey(s.meta, p)
    ensures var r := Create(H, s, parent, p, fd, ino, writing, trunc, caller, x, openOk, fstatOk, now);
      var made := openOk && p !in s.fs.folders;
      && (r.reply == Panic <==> made && fstatOk && !NeverSeen(s.meta, p) && MetaOf(s.meta, p).None?)
      && (r.reply == Panic || r.reply == Err(OK))
      && (!made || !fstatOk ==> r.sys.meta == s.meta && r.sys.handles == s.handles)
      && (if !made then r.sys.fs == s.fs
          else if fstatOk then CreatedIn(s.fs, r.sys.fs, p, fd, ino, trunc)
          else r.sys.fs.dir == (if p in s.fs.dir then s.fs.dir else s.fs.dir[p := ino])
               && r.sys.fs.fds == s.fs.fds - {fd})
      && (made && fstatOk && r.reply == Err(OK) ==>
            p in r.sys.fs.dir && NodeMade(H, s.meta, s.handles, r.sys, p, fd, r.sys.fs.dir[p], writing, x.mode))
  {
    hide CreatedIn, NodeMade, CreateOrOpen, NeverSeen, CreateNode, MetaOf;
    CreateOrOpenMakes(s.fs, p, fd, ino, trunc);
    var s1, out := NoteCreator(s, p, caller), CreateOrOpen(s.fs, p, fd, ino, trunc);
    if openOk && out.Some? {
      CreateOrOpenHasFd(s.fs, p, fd, ino, trunc);
      if fstatOk {
        CreateNodeMakes(H, s1.(fs := out.value), parent, p, fd, writing, x, now);
      }
    }
  }

  lemma CreateOrOpenHasFd(fs: FS, p: Path, fd: nat, ino: nat, trunc: bool)
    requires CreateOrOpen(fs, p, fd, ino, trunc).Some?
    ensures var fs' := CreateOrOpen(fs, p, fd, ino, trunc).value;
      && fd in fs'.fds && fs'.dir == (if p in fs.dir then fs.dir else fs.dir[p := ino]) && p in fs'.dir
      && fs'.fds[fd] == fs'.dir[p] && fs'.fds - {fd} == fs.fds - {fd}
  {
  }

  lemma CreateNodeMakes(H: Hasher, s: Sys, parent: Path, p: Path, fd: nat, writing: bool, x: Stat, now: Timespec)
    requires fd in s.fs.fds && FolderWithoutKey(s.meta, p)
    ensures var r := CreateNode(H, s, parent, p, fd, writing, x, now);
      && (r.reply == Panic <==> !NeverSeen(s.meta, p) && MetaOf(s.meta, p).None?)
      && (r.reply == Panic || r.reply == Err(OK)) && r.sys.fs == s.fs
      && (r.reply == Err(OK) ==> NodeMade(H, s.meta, s.handles, r.sys, p, fd, s.fs.fds[fd], writing, x.mode))
  {
    var n := Instantiate(H, s.meta, p, StatOf(s.fs, s.fs.fds[fd], x), false);
    TouchDirFrame(n.meta, parent, now);
  }

  /** Opening a file: refused if the kernel refuses, and nothing changes then; otherwise the handle has the path's key
      of that moment, and the bytes stay unless they are cut off. */
  lemma OpenMakes(s: Sys, p: Path, fd: nat, writing: bool, trunc: bool, ok: bool)
    ensures var r := OpenFile(s, p, fd, writing, trunc, ok);
      && (r.reply == Err(OK) <==> ok && p in s.fs.dir) && (r.reply != Err(OK) ==> r == Res(s, Err(Kernel)))
      && (r.reply == Err(OK) ==>
            && r.sys == s.(fs := r.sys.fs, handles := r.sys.handles)
            && fd in r.sys.handles && r.sys.handles - {fd} == s.handles - {fd}
            && r.sys.handles[fd].path == p && r.sys.handles[fd].writing == writing
            && (p !in s.meta.nodes ==> r.sys.handles[fd].hash == ZERO && r.sys.handles[fd].ref == 0)
            && (p in s.meta.nodes ==> r.sys.handles[fd].hash == s.meta.nodes[p].hash
                                      && r.sys.handles[fd].ref == s.meta.nodes[p].ref)
            && r.sys.fs.dir == s.fs.dir && r.sys.fs.fds == s.fs.fds[fd := s.fs.dir[p]]
            && At(r.sys.fs, s.fs.dir[p]).bytes == (if trunc then [] else At(s.fs, s.fs.dir[p]).bytes)
            && forall i | i != s.fs.dir[p] :: Get(r.sys.fs.inodes, i) == Get(s.fs.inodes, i))
  {
  }

  /** A hard link: the second name leads to the same inode and to the same record and attributes, under the number of
      the first. Where anything fails, the state is what it was, and the reply is OK if it was the look at the new
      name that failed. */
  lemma HardLinkMakes(s: Sys, parent: Path, a: Path, b: Path, mode: nat, ok: bool, statOk: bool, now: Timespec)
    requires WF(s.fs)
    ensures var r := HardLink(s, parent, a, b, mode, ok, statOk, now);
      var made := ok && a in s.fs.dir && b !in s.fs.dir && b !in s.fs.folders;
      var entered := statOk && a in s.meta.nodes && b !in s.meta.nodes;
      && r.reply == Err(if !made then Kernel else if !statOk then OK else if a !in s.meta.nodes then ENOENT
                        else if b in s.meta.nodes then EEXIST else OK)
      && (!made || !entered ==> r.sys == s)
      && (made && entered ==>
            && r.sys.fs.dir == s.fs.dir[b := s.fs.dir[a]]
            && Contents(r.sys.fs) == Contents(s.fs)[b := Contents(s.fs)[a]]
            && WF(r.sys.fs) && r.sys.meta.files == s.meta.files && r.sys.meta.xattrs == s.meta.xattrs
            && r.sys.meta.nodes == s.meta.nodes[b := s.meta.nodes[a].(mode := mode, isDir := false)]
            && (!s.meta.nodes[a].isDir ==>
                  && MetaOf(r.sys.meta, b) == MetaOf(s.meta, a) && XAttrMapOf(r.sys.meta, b) == XAttrMapOf(s.meta, a)))
  {
    hide WF, Contents;
    if ok && a in s.fs.dir && b !in s.fs.dir && b !in s.fs.folders {
      var fs' := LinkEffect(s.fs, a, b);
      LinkWithdrawn(s.fs, a, b);
      hide Link;
      if statOk && a in s.meta.nodes && b !in s.meta.nodes {
        var info := s.meta.nodes[a];
        var t := StoreReg(s.meta, b, info.stable, mode, info.hash, info.ref);
        TouchDirFrame(t, parent, now);
      }
    }
  }

  lemma LinkWithdrawn(fs: FS, a: Path, b: Path)
    requires WF(fs) && Link(fs, a, b).Some?
    ensures Scratch(Link(fs, a, b).value, b, true) == fs
  {
    var i, fs' := fs.dir[a], Link(fs, a, b).value;
    NoNames(fs.dir, i);
    assert fs.inodes[i].nlink != 0;
    assert Unhook(fs', b).dir == fs.dir && Unhook(fs', b).inodes == fs.inodes;
  }

  // ---------- times ----------

  /** The calls that set the times of the directories around the names they change, and when they get that far: after
      a success, except that a rename sets them after a failure too, but not after moving a directory that has no
      record. */
  ghost predicate Stamps(H: Hasher, s: Sys, e: Event) {
    match e
    case ECreate(_, p, _, _, _, _, _, _, openOk, fstatOk, _) =>
      openOk && p !in s.fs.folders && fstatOk && Respond(H, s, e).reply != Panic
    case EUnlink(_, p, ok, _) => ok && p in s.fs.dir
    case ERmdir(_, p, ok, _) => ok && p in s.fs.folders
    case ELink(_, _, _, _, _, statOk, _) => statOk && Respond(H, s, e).reply == Err(OK)
    case ERename(_, p, _, _, _, _, _) =>
      p in s.meta.nodes && (Respond(H, s, e).reply == Err(OK) && s.meta.nodes[p].isDir ==> p in s.meta.dirs)
    case _ => false
  }

  function Parents(e: Event): set<Path> {
    match e
    case ECreate(parent, _, _, _, _, _, _, _, _, _, _) => {parent}
    case EUnlink(parent, _, _, _) => {parent}
    case ERmdir(parent, _, _, _) => {parent}
    case ELink(parent, _, _, _, _, _, _) => {parent}
    case ERename(parent, _, parentB, _, _, _, _) => {parent, parentB}
    case _ => {}
  }

  predicate ChangesNames(e: Event) { e.ECreate? || e.EUnlink? || e.ERmdir? || e.ELink? || e.ERename? }

  /** The directories in ps are changed at `now`, and those not in `moved` are otherwise what they were. */
  ghost predicate Stamped(s: Store, s': Store, ps: set<Path>, now: Timespec, moved: set<Path>) {
    forall q | q in s.dirs && q !in moved ::
      q in s'.dirs && s'.dirs[q] == if q in ps then s.dirs[q].(mtim := now, ctim := now) else s.dirs[q]
  }

  lemma TouchStamps(s: Store, q: Path, now: Timespec)
    ensures Stamped(s, TouchDir(s, q, now), {q}, now, {})
  {
  }

  lemma TouchBothStamps(s: Store, t: Store, p: Path, q: Path, now: Timespec, moved: set<Path>)
    requires forall x | x in s.dirs && x !in moved :: Get(t.dirs, x) == Some(s.dirs[x])
    ensures Stamped(s, TouchDir(TouchDir(t, p, now), q, now), {p, q}, now, moved)
  {
    TouchStamps(t, p, now);
    TouchStamps(TouchDir(t, p, now), q, now);
  }

  /** In any state, modification and change time of the parents become `now` exactly if the call gets that far, and no
      other directory that stays in place changes. */
  lemma ParentsAreStamped(H: Hasher, s: Sys, e: Event)
    requires ChangesNames(e)
    ensures Stamped(s.meta, Step(H, s, e).meta, if Stamps(H, s, e) then Parents(e) else {}, e.now,
                    if e.ERename? then {e.p, e.b} else if e.ERmdir? then {e.p} else {})
  {
    hide Stamped, Create, HardLink, RenamePath, Session.Unlink, RemoveDir;
    match e
    case ECreate(parent, p, fd, ino, writing, trunc, caller, x, openOk, fstatOk, now) =>
      CreateStamps(H, s, parent, p, fd, ino, writing, trunc, caller, x, openOk, fstatOk, now);
    case EUnlink(parent, p, ok, now) => UnlinkStamps(s, parent, p, ok, now);
    case ERmdir(parent, p, ok, now) => RmdirStamps(s, parent, p, ok, now);
    case ELink(parent, p, b, mode, ok, statOk, now) => LinkStamps(s, parent, p, b, mode, ok, statOk, now);
    case ERename(parent, p, parentB, b, exchange, ok, now) => RenameStamps(s, parent, p, parentB, b, exchange, ok, now);
  }

  lemma CreateStamps(H: Hasher, s: Sys, parent: Path, p: Path, fd: nat, ino: nat, writing: bool, trunc: bool,
                     caller: Option<Owner>, x: Stat, openOk: bool, fstatOk: bool, now: Timespec)
    ensures var r := Create(H, s, parent, p, fd, ino, writing, trunc, caller, x, openOk, fstatOk, now);
      Stamped(s.meta, r.sys.meta, if openOk && p !in s.fs.folders && fstatOk && r.reply != Panic then {parent} else {},
              now, {})
  {
    hide CreateOrOpen, Stamped, CreateNode;
    CreateOrOpenMakes(s.fs, p, fd, ino, trunc);
    assert Stamped(s.meta, s.meta, {}, now, {}) by { NothingStamped(s.meta, now); }
    var s1, out := NoteCreator(s, p, caller), CreateOrOpen(s.fs, p, fd, ino, trunc);
    if openOk && out.Some? {
      CreateOrOpenHasFd(s.fs, p, fd, ino, trunc);
      if fstatOk {
        CreateNodeStamps(H, s1.(fs := out.value), parent, p, fd, writing, x, now);
      }
    }
  }

  lemma NothingStamped(s: Store, now: Timespec)
    ensures Stamped(s, s, {}, now, {})
  {
  }

  lemma CreateNodeStamps(H: Hasher, s: Sys, parent: Path, p: Path, fd: nat, writing: bool, x: Stat, now: Timespec)
    requires fd in s.fs.fds
    ensures var r := CreateNode(H, s, parent, p, fd, writing, x, now);
      Stamped(s.meta, r.sys.meta, if r.reply != Panic then {parent} else {}, now, {})
  {
    var n := Instantiate(H, s.meta, p, StatOf(s.fs, s.fs.fds[fd], x), false);
    assert n.meta.dirs == s.meta.dirs;
    TouchStamps(n.meta, parent, now);
  }

  lemma UnlinkStamps(s: Sys, parent: Path, p: Path, ok: bool, now: Timespec)
    ensures Stamped(s.meta, Session.Unlink(s, parent, p, ok, now).sys.meta,
                    if ok && p in s.fs.dir then {parent} else {}, now, {})
  {
    TouchStamps(DropPath(s.meta, p), parent, now);
  }

  lemma RmdirStamps(s: Sys, parent: Path, p: Path, ok: bool, now: Timespec)
    ensures Stamped(s.meta, RemoveDir(s, parent, p, ok, now).sys.meta,
                    if ok && p in s.fs.folders then {parent} else {}, now, {p})
  {
    TouchStamps(RemoveNode(RemoveDirEntry(s.meta, p), p), parent, now);
  }

  lemma LinkStamps(s: Sys, parent: Path, a: Path, b: Path, mode: nat, ok: bool, statOk: bool, now: Timespec)
    ensures var r := HardLink(s, parent, a, b, mode, ok, statOk, now);
      Stamped(s.meta, r.sys.meta, if statOk && r.reply == Err(OK) then {parent} else {}, now, {})
  {
    hide Link, Scratch;
    if a in s.meta.nodes {
      TouchStamps(StoreReg(s.meta, b, s.meta.nodes[a].stable, mode, s.meta.nodes[a].hash, s.meta.nodes[a].ref), parent,
                  now);
    }
  }

  lemma RenameStamps(s: Sys, parentA: Path, a: Path, parentB: Path, b: Path, exchange: bool, ok: bool, now: Timespec)
    ensures var r := RenamePath(s, parentA, a, parentB, b, exchange, ok, now);
      var stamps := a in s.meta.nodes && (r.reply == Err(OK) && s.meta.nodes[a].isDir ==> a in s.meta.dirs);
      Stamped(s.meta, r.sys.meta, if stamps then {parentA, parentB} else {}, now, {a, b})
  {
    hide Renamed;
    TouchBothStamps(s.meta, s.meta, parentA, parentB, now, {a, b});
    if a in s.meta.nodes {
      TouchBothStamps(s.meta, Rekey(s.meta, a, b), parentA, parentB, now, {a, b});
    }
  }

  /** Opening a directory renews the access time of its record, if it has one, and nothing else. */
  lemma OpendirRenews(s: Sys, p: Path, ok: bool, now: Timespec)
    ensures var r := OpenDir(s, p, ok, now);
      && (r.reply == Err(OK) <==> ok && p in s.fs.folders) && (r.reply == Err(OK) || r.reply == Err(Kernel))
      && (r.reply != Err(OK) || p !in s.meta.dirs ==> r.sys == s)
      && (r.reply == Err(OK) && p in s.meta.dirs ==>
            r.sys == s.(meta := s.meta.(dirs := s.meta.dirs[p := s.meta.dirs[p].(atim := now)])))
  {
  }

  /** Reading through a handle assigns to the record under its key and to nothing else. */
  lemma ReadRenews(s: Sys, fd: nat, now: Timespec, l: Loc)
    ensures var r := Read(s, fd, now);
      && (fd !in s.handles ==> r == Res(s, Err(EBADFD)))
      && (fd in s.handles ==>
            && r.reply == Err(OK) && r.sys == s.(meta := s.meta.(files := r.sys.meta.files)) &&
            var mine, was := l == FileLoc(s.handles[fd].hash, s.handles[fd].ref), MetaAt(s.meta, l);
            MetaAt(r.sys.meta, l) == if mine && was.Some? then Some(was.value.(atim := now)) else was)
  {
    hide Live;
    if fd in s.handles {
      var at := FileLoc(s.handles[fd].hash, s.handles[fd].ref);
      if MetaAt(s.meta, at).Some? {
        var m := WithTime(MetaAt(s.meta, at).value, Some(now), None, None);
        MetaAfterPut(s.meta, at, m);
        if l != at {
          PutElsewhere(s.meta, at, m, l);
        }
      }
    }
  }

  // ---------- writing and rewriting ----------

  /** A Write through the descriptor lands: the kernel takes the bytes, or some of them. */
  predicate Lands(s: Sys, fd: nat, data: Bytes, written: Option<nat>) {
    fd in s.handles && fd in s.fs.fds && written.Some? && written.value <= |data|
  }

  /** In any state: a Write through an unknown handle changes nothing. Otherwise the digest of the whole block is
      appended to the pending buffer, which keeps its owner or gets the caller for one, or nobody; and if the write
      lands, byte by byte the inode behind the descriptor has what was taken of the block. */
  lemma WriteMakes(H: Hasher, s: Sys, fd: nat, p: Path, data: Bytes, off: nat, caller: Option<Owner>,
                   written: Option<nat>, now: Timespec)
    ensures var r := Write(H, s, fd, p, data, off, caller, written, now);
      && (fd !in s.handles ==> r == Res(s, Err(EBADFD)))
      && (fd in s.handles ==>
            && r.reply == Err(if Lands(s, fd, data, written) then OK else Kernel) && p in r.sys.buffers
            && r.sys.buffers - {p} == s.buffers - {p} && r.sys.handles == s.handles &&
            var was, w := PendingBuffer(s.buffers, p), r.sys.buffers[p];
            && w.buffer == Some((if was.Some? then was.value else []) + H(data))
            && (w.uid, w.gid) == (if p in s.buffers then (s.buffers[p].uid, s.buffers[p].gid)
                                  else if caller.Some? then (caller.value.uid, caller.value.gid) else (65534, 65534)))
      && (!Lands(s, fd, data, written) ==> r.sys.fs == s.fs && r.sys.meta == s.meta)
      && (Lands(s, fd, data, written) ==>
            var i := s.fs.fds[fd];
            && r.sys.fs == s.fs.(inodes := s.fs.inodes[i := At(r.sys.fs, i)])
            && At(r.sys.fs, i).nlink == At(s.fs, i).nlink
            && Overwritten(At(s.fs, i).bytes, At(r.sys.fs, i).bytes, off, data[..written.value]))
  {
    hide Splice, Overwritten, UpdateTime, MetaAt;
    assert [] + H(data) == H(data);
    if Lands(s, fd, data, written) {
      SpliceOverwrites(At(s.fs, s.fs.fds[fd]).bytes, off, data[..written.value]);
    }
  }

  /** A Write that lands, through a handle that holds q's key. */
  predicate WritesRecord(s: Sys, e: Event, q: Path) {
    && e.EWrite? && Lands(s, e.fd, e.data, e.written)
    && LocOf(s.meta, q) == Some(FileLoc(s.handles[e.fd].hash, s.handles[e.fd].ref))
  }

  /** The exact condition, in any state, under which a Write changes the record of q: it becomes modified now, and
      nothing else, whichever file the handle was opened on. */
  lemma WriteLeavesRecord(H: Hasher, s: Sys, e: Event, q: Path)
    requires e.EWrite?
    ensures var was, now := MetaOf(s.meta, q), MetaOf(Step(H, s, e).meta, q);
      && (now == was <==> !WritesRecord(s, e, q) || was.None? || was.value.mtim == e.now)
      && (WritesRecord(s, e, q) && was.Some? ==> now == Some(was.value.(mtim := e.now)))
  {
    hide Splice;
    if Lands(s, e.fd, e.data, e.written) {
      var l := FileLoc(s.handles[e.fd].hash, s.handles[e.fd].ref);
      if MetaAt(s.meta, l).Some? {
        var m := WithTime(MetaAt(s.meta, l).value, None, Some(e.now), None);
        MetaAfterPut(s.meta, l, m);
        if LocOf(s.meta, q).Some? && LocOf(s.meta, q).value != l {
          PutElsewhere(s.meta, l, m, LocOf(s.meta, q).value);
        }
      }
    }
  }

  /** A file with a record, written through a handle with its key and closed with new content: Getattr shows owner,
      mode and inode number of before, size, links, blocks, device and access time of the file as it is, and `now` for
      modification and change; the extended attributes are what they were. What Getattr does not show is kept or taken
      over likewise. */
  lemma RewriteShows(H: Hasher, s: Sys, fd: nat, p: Path, o: Env, f: Option<nat>, x: Stat)
    requires fd in s.handles && s.handles[fd].writing && fd in s.fs.fds && MetaOf(s.meta, p).Some? && o.fstatOk
    requires LocOf(s.meta, p) == Some(FileLoc(s.handles[fd].hash, s.handles[fd].ref))
    requires IsUnique(s.meta.files, FinalHash(H, s, p))
    ensures var r, was := Release(H, s, fd, p, o), Getattr(s, p, f, x);
      && r.reply == Err(OK) && was.Some? && Getattr(r.sys, p, f, x).Some? &&
      var out, ino := Getattr(r.sys, p, f, x).value, s.fs.fds[fd];
      && (out.mode, out.uid, out.gid, out.ino) == (was.value.mode, was.value.uid, was.value.gid, was.value.ino)
      && out.size == |At(s.fs, ino).bytes| % U64 && out.nlink == At(s.fs, ino).nlink % U32
      && out.blocks == o.st.blocks % U64 && out.blksize == o.st.blksize % U32 && out.rdev == o.st.rdev % U32
      && ShowsTime(out.atime, out.atimensec, o.st.atim) && ShowsTime(out.mtime, out.mtimensec, o.now)
      && ShowsTime(out.ctime, out.ctimensec, o.now)
      && XAttrMapOf(r.sys.meta, p) == XAttrMapOf(s.meta, p) && MetaOf(r.sys.meta, p).Some? &&
      var old', new' := MetaOf(s.meta, p).value, MetaOf(r.sys.meta, p).value;
      && new'.path == old'.path && new'.dev == old'.dev && new'.gen == old'.gen
      && new'.pad0 == o.st.pad0 && new'.unused == o.st.unused
  {
    var h, was := FinalHash(H, s, p), MetaOf(s.meta, p).value;
    var ref, s1 := ClaimedRef(s.meta.files, h), Taken(s, fd, p, h);
    var l, st := FileLoc(h, ref), StatOf(s.fs, s.fs.fds[fd], o.st);
    assert MetaAt(s1.meta, l).Some? && LocOf(s1.meta, p) == Some(l);
    MetaAfterPut(s1.meta, l, MigrateRegular(was, st));
    MetaAfterPut(Put(s1.meta, l, MigrateRegular(was, st)), l,
                 WithTime(MigrateRegular(was, st), None, Some(o.now), Some(o.now)));
  }

  /** If fstat() fails there, the descriptor stays open, and the new record stays as it was made. */
  lemma FailedStatLeaks(H: Hasher, s: Sys, fd: nat, p: Path, o: Env)
    requires fd in s.handles && s.handles[fd].writing && (!o.fstatOk || fd !in s.fs.fds)
    requires IsUnique(s.meta.files, FinalHash(H, s, p))
    ensures var r := Release(H, s, fd, p, o);
      && r.reply == Err(Kernel) && r.sys.fs == s.fs && r.sys.handles == s.handles - {fd}
      && r.sys.buffers == s.buffers - {p} && r.sys.meta.xattrs == s.meta.xattrs
      && (p in s.meta.nodes && !s.meta.nodes[p].isDir ==> MetaOf(r.sys.meta, p) == Some(DEFAULT_META))
  {
  }

  /** Closing a file that was opened for reading gives its descriptor and its handle up, and nothing else. */
  lemma ReadReleaseCloses(H: Hasher, s: Sys, fd: nat, p: Path, o: Env)
    requires WF(s.fs) && (fd in s.handles ==> !s.handles[fd].writing)
    ensures var r := Release(H, s, fd, p, o);
      && (fd !in s.handles ==> r == Res(s, Err(EBADFD)))
      && (fd in s.handles ==>
            && r.reply == Err(OK) && r.sys == s.(fs := r.sys.fs, handles := s.handles - {fd})
            && r.sys.fs.dir == s.fs.dir && r.sys.fs.folders == s.fs.folders && r.sys.fs.fds == s.fs.fds - {fd}
            && Contents(r.sys.fs) == Contents(s.fs) && WF(r.sys.fs))
  {
    hide WF, Contents, Close;
    var fs' := CloseEffect(s.fs, fd);
  }

  /** Why a Release of known content fails, by the names in the tree and the calls that fail. */
  predicate NoLink(fs: FS, rec: Meta, p: Path, o: Env) {
    !o.linkOk || rec.path !in fs.dir || TmpPath(p) in fs.dir || TmpPath(p) in fs.folders
  }

  predicate NoSpare(fs: FS, p: Path, o: Env) { !o.spareOk || SparePath(p) in fs.folders || !o.spareStatOk }

  /** What every Release answers, in any state. */
  lemma ReleaseReplies(H: Hasher, s: Sys, fd: nat, p: Path, o: Env)
    ensures var reply, h := Release(H, s, fd, p, o).reply, FinalHash(H, s, p);
      if fd !in s.handles then reply == Err(EBADFD)
      else if !s.handles[fd].writing then reply == Err(OK)
      else if h == ZERO || h !in s.meta.files then reply == Err(if o.fstatOk && fd in s.fs.fds then OK else Kernel)
      else
        var rec := Recent(s.meta.files[h]);
        if rec.None? then reply == Err(ENOENT)
        else if NoLink(s.fs, rec.value, p, o) then reply == Err(ENOLINK)
        else if !o.lstatOk then reply == Err(ENOENT)
        else if !o.renameOk || p in s.fs.folders then reply == Err(EIO)
        else if Live(s.meta.files, s.handles[fd].hash, s.handles[fd].ref) then reply == Err(OK)
        else reply == Err(if NoSpare(s.fs, p, o) then Kernel else OK)
  {
    hide Recent, FinalHash;
    var h, t := FinalHash(H, s, p), Close(s.fs, fd);
    if fd in s.handles && s.handles[fd].writing && !IsUnique(s.meta.files, h) && Recent(s.meta.files[h]).Some? {
      DuplicateReplies(Taken(s, fd, p, h).(fs := t), p, h, ClaimedRef(s.meta.files, h), Recent(s.meta.files[h]).value,
                       Lookup(s.meta.files, s.handles[fd].hash, s.handles[fd].ref), BufferOwner(s, p), o);
    }
  }

  lemma DuplicateReplies(s: Sys, p: Path, h: Hash, ref: nat, rec: Meta, was: Option<Meta>, owner: Owner, o: Env)
    ensures ReleaseDuplicate(s, p, h, ref, Some(rec), was, owner, o).reply
      == Err(if NoLink(s.fs, rec, p, o) then ENOLINK
             else if !o.lstatOk then ENOENT
             else if !o.renameOk || p in s.fs.folders then EIO
             else if was.None? && NoSpare(s.fs, p, o) then Kernel else OK)
  {
    hide Scratch, Forget, FillDuplicate;
  }

  /** Unlink: the name, its entry and the record under its key go, if the kernel agrees; the empty-file class keeps its
      records. */
  lemma UnlinkRemoves(s: Sys, parent: Path, p: Path, ok: bool, now: Timespec, h: Hash, ref: nat)
    requires WF(s.fs) && FilesWF(s.meta.files)
    ensures var r := Session.Unlink(s, parent, p, ok, now);
      && (r.reply == Err(OK) <==> ok && p in s.fs.dir) && (r.reply == Err(OK) || r.reply == Err(Kernel))
      && (r.reply != Err(OK) ==> r.sys == s)
      && (r.reply == Err(OK) ==>
            && r.sys.fs.dir == s.fs.dir - {p} && Contents(r.sys.fs) == Contents(s.fs) - {p} && WF(r.sys.fs)
            && r.sys.buffers == s.buffers && r.sys.handles == s.handles
            && r.sys.meta.nodes == s.meta.nodes - {p} && r.sys.meta.xattrs == s.meta.xattrs
            && Lookup(r.sys.meta.files, h, ref) ==
               if p in s.meta.nodes && h == s.meta.nodes[p].hash && ref == s.meta.nodes[p].ref && h != ZERO then None
               else Lookup(s.meta.files, h, ref))
  {
    hide WF, FilesWF, Contents, Underlying.Unlink;
    if p in s.fs.dir {
      var fs' := UnlinkEffect(s.fs, p);
      TouchDirFrame(DropPath(s.meta, p), parent, now);
      if p in s.meta.nodes {
        RemoveLive(s.meta.files, s.meta.nodes[p].hash, s.meta.nodes[p].ref, h, ref);
      }
    } else {
      assert Underlying.Unlink(s.fs, p).None? by { NoSuchName(s.fs, p); }
    }
  }

  lemma NoSuchName(fs: FS, p: Path)
    requires p !in fs.dir
    ensures Underlying.Unlink(fs, p).None?
  {
  }
}
