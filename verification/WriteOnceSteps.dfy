/** Every allowed step keeps the write-once invariant. */
module WriteOnceSteps {
  import opened Basics
  import opened Fingerprints
  import opened StoreModel
  import opened StoreRuns
  import opened Underlying
  import opened Session
  import opened DedupTree
  import opened WriteOnce

  lemma TouchDirFrame(s: Store, dir: Path, now: Timespec)
    ensures var s' := TouchDir(s, dir, now);
      s'.files == s.files && s'.nodes == s.nodes && s'.dirs.Keys == s.dirs.Keys && s'.xattrs == s.xattrs
        && s'.next == s.next
  {
  }

  // ---------- Create ----------

  /** What creating a new file does. */
  ghost predicate Created(s: Sys, s': Sys, p: Path, fd: nat, ino: nat, info: NodeInfo) {
    && Shows(s'.fs, s.fs.dir[p := ino], Contents(s.fs)[p := []], s.fs.fds[fd := ino], s.fs)
    && s'.meta.files == s.meta.files && s'.meta.dirs.Keys == s.meta.dirs.Keys
    && s'.meta.nodes == s.meta.nodes[p := info] && !info.isDir && info.hash == ZERO && info.ref == 0
    && s'.handles == s.handles[fd := Handle(p, true, ZERO, 0)]
    && (forall q :: PendingBuffer(s'.buffers, q) == PendingBuffer(s.buffers, q))
  }

  lemma CreateShape(H: Hasher, s: Sys, parent: Path, p: Path, fd: nat, ino: nat, trunc: bool, caller: Option<Owner>,
                    x: Stat, now: Timespec)
    returns (info: NodeInfo)
    requires WF(s.fs) && Unused(s.fs, p) && p !in s.meta.nodes && ino !in s.fs.inodes && fd !in s.fs.fds
    ensures Created(s, Create(H, s, parent, p, fd, ino, true, trunc, caller, x, true, true, now).sys, p, fd, ino, info)
    ensures info.stable.ino == VirtualIno(H, p, s.fs.dev, ino)
    ensures Create(H, s, parent, p, fd, ino, true, trunc, caller, x, true, true, now).reply == Err(OK)
  {
    hide WF, Contents, CreateNode;
    var s1 := NoteCreator(s, p, caller);
    var got := OpenCreateEffect(s.fs, p, fd, ino);
    info := NewNodeShape(H, s1.(fs := got), parent, p, fd, x, now);
  }

  lemma NewNodeShape(H: Hasher, s: Sys, parent: Path, p: Path, fd: nat, x: Stat, now: Timespec) returns (info: NodeInfo)
    requires fd in s.fs.fds && p !in s.meta.nodes
    ensures var r := CreateNode(H, s, parent, p, fd, true, x, now);
      && r.reply == Err(OK) && r.sys.fs == s.fs && r.sys.buffers == s.buffers
      && r.sys.meta.files == s.meta.files && r.sys.meta.dirs.Keys == s.meta.dirs.Keys
      && r.sys.meta.nodes == s.meta.nodes[p := info] && !info.isDir && info.hash == ZERO && info.ref == 0
      && r.sys.handles == s.handles[fd := Handle(p, true, ZERO, 0)]
    ensures info.stable.ino == VirtualIno(H, p, s.fs.dev, s.fs.fds[fd])
  {
    var st := StatOf(s.fs, s.fs.fds[fd], x);
    var stable := NewStable(H, p, st);
    info := NodeInfo(stable, st.mode, false, ZERO, 0);
    var n := Instantiate(H, s.meta, p, st, false);
    assert n == Node(StoreReg(s.meta, p, stable, st.mode, ZERO, 0), Err(OK), stable, ZERO, 0);
    TouchDirFrame(n.meta, parent, now);
  }

  function CreatedHist(k: Hist, p: Path, fd: nat): Hist { k.(blocks := k.blocks[p := []], open := k.open[p := fd]) }

  lemma CreatedOthers(s: Sys, k: Hist, s': Sys, p: Path, fd: nat, ino: nat, info: NodeInfo, q: Path)
    requires Created(s, s', p, fd, ino, info) && q != p
    requires fd !in s.fs.fds && fd !in s.handles
    requires q in k.open ==> k.open[q] in s.handles && k.open[q] in s.fs.fds
    ensures View(s', CreatedHist(k, p, fd), q) == View(s, k, q)
  {
  }

  lemma CreatedView(s: Sys, k: Hist, s': Sys, p: Path, fd: nat, ino: nat, info: NodeInfo)
    requires Created(s, s', p, fd, ino, info) && Unused(s.fs, p)
    ensures View(s', CreatedHist(k, p, fd), p) ==
            PathView(Some(ino), Some([]), false, Some(info), PendingBuffer(s.buffers, p), Some([]), p in k.left,
                     Some(fd),
                     Some(Handle(p, true, ZERO, 0)), Some(ino))
  {
  }

  lemma CreatedPrivate(fs: FS, dir: map<Path, nat>, open: map<Path, nat>, p: Path, fd: nat, ino: nat)
    requires WF(fs) && PrivateInv(fs.dir, open) && ino !in fs.inodes && p !in fs.dir && dir == fs.dir[p := ino]
    ensures PrivateInv(dir, open[p := fd])
  {
  }

  lemma CreatedPaths(H: Hasher, s: Sys, k: Hist, s': Sys, p: Path, fd: nat, ino: nat, info: NodeInfo)
    requires PathsOk(H, s, k) && Created(s, s', p, fd, ino, info)
    requires UserPath(p) && Unused(s.fs, p) && fd !in s.fs.fds && fd !in s.handles
    ensures forall q | q != p :: View(s', CreatedHist(k, p, fd), q) == View(s, k, q)
    ensures PathsOk(H, s', CreatedHist(k, p, fd)) && Absent(View(s, k, p))
  {
    hide WF;
    forall q | q != p ensures View(s', CreatedHist(k, p, fd), q) == View(s, k, q) {
      assert PathOk(H, k.hashed, View(s, k, q), q);
      CreatedOthers(s, k, s', p, fd, ino, info, q);
    }
    assert PathOk(H, k.hashed, View(s, k, p), p);
    CreatedView(s, k, s', p, fd, ino, info);
    OnePathStep(H, s, k, s', CreatedHist(k, p, fd), p);
  }

  lemma CreatedKeepsInv(H: Hasher, s: Sys, k: Hist, s': Sys, p: Path, fd: nat, ino: nat, info: NodeInfo)
    requires Inv(H, s, k) && Created(s, s', p, fd, ino, info)
    requires UserPath(p) && Unused(s.fs, p) && fd !in s.fs.fds && fd !in s.handles && ino !in s.fs.inodes
    ensures Inv(H, s', CreatedHist(k, p, fd))
  {
    CreatedPaths(H, s, k, s', p, fd, ino, info);
    SameRecordsStep(s, k, s', CreatedHist(k, p, fd), p);
    CreatedPrivate(s.fs, s'.fs.dir, k.open, p, fd, ino);
  }

  // ---------- Write ----------

  /** What a sequential write through the open handle of p does. */
  ghost predicate Written(H: Hasher, s: Sys, s': Sys, p: Path, data: Bytes) {
    && p in s.fs.dir
    && Shows(s'.fs, s.fs.dir, Contents(s.fs)[p := Contents(s.fs)[p] + data], s.fs.fds, s.fs)
    && s'.meta == s.meta && s'.handles == s.handles
    && PendingBuffer(s'.buffers, p)
       == Some((if PendingBuffer(s.buffers, p).Some? then PendingBuffer(s.buffers, p).value else []) + H(data))
    && (forall q | q != p :: PendingBuffer(s'.buffers, q) == PendingBuffer(s.buffers, q))
  }

  lemma BufferedPending(H: Hasher, s: Sys, p: Path, data: Bytes, caller: Option<Owner>, q: Path)
    ensures PendingBuffer(Buffered(H, s, p, data, caller), q) ==
            if q != p then PendingBuffer(s.buffers, q)
            else Some((if PendingBuffer(s.buffers, p).Some? then PendingBuffer(s.buffers, p).value else []) + H(data))
  {
    assert [] + H(data) == H(data);
  }

  lemma WriteIs(H: Hasher, s: Sys, fd: nat, p: Path, data: Bytes, off: nat, caller: Option<Owner>, now: Timespec)
    requires FilesWF(s.meta.files) && fd in s.handles && s.handles[fd] == Handle(p, true, ZERO, 0) && fd in s.fs.fds
    ensures Write(H, s, fd, p, data, off, caller, Some(|data|), now) ==
            Res(s.(buffers := Buffered(H, s, p, data, caller), fs := Pwrite(s.fs, fd, off, data).value), Err(OK))
  {
    assert data[..|data|] == data;
    assert !Live(s.meta.files, ZERO, 0);
    assert UpdateTime(s.meta, FileLoc(ZERO, 0), None, Some(now), None) == s.meta;
  }

  lemma WriteShape(H: Hasher, s: Sys, fd: nat, p: Path, data: Bytes, caller: Option<Owner>, now: Timespec)
    requires WF(s.fs) && FilesWF(s.meta.files) && Private(s.fs.dir, p)
    requires fd in s.handles && s.handles[fd] == Handle(p, true, ZERO, 0) && fd in s.fs.fds
      && s.fs.fds[fd] == s.fs.dir[p]
    ensures Written(H, s, Write(H, s, fd, p, data, |Contents(s.fs)[p]|, caller, Some(|data|), now).sys, p, data)
  {
    WriteIs(H, s, fd, p, data, |Contents(s.fs)[p]|, caller, now);
    var fs' := PwriteEffect(s.fs, fd, |Contents(s.fs)[p]|, data, p);
    SpliceAppends(Contents(s.fs)[p], data);
    forall q ensures PendingBuffer(Buffered(H, s, p, data, caller), q) ==
            if q != p then PendingBuffer(s.buffers, q)
            else Some((if PendingBuffer(s.buffers, p).Some? then PendingBuffer(s.buffers, p).value else []) + H(data))
    {
      BufferedPending(H, s, p, data, caller, q);
    }
  }

  function WrittenHist(k: Hist, p: Path, data: Bytes): Hist
    requires p in k.blocks
  {
    k.(blocks := k.blocks[p := k.blocks[p] + [data]], hashed := k.hashed + {data})
  }

  lemma WrittenPaths(H: Hasher, s: Sys, k: Hist, s': Sys, p: Path, data: Bytes)
    requires PathsOk(H, s, k) && p in k.open && p in k.blocks && Written(H, s, s', p, data)
    ensures forall q | q != p :: View(s', WrittenHist(k, p, data), q) == View(s, k, q)
    ensures PathsOk(H, s', WrittenHist(k, p, data))
  {
    hide WF, Contents;
    var k' := WrittenHist(k, p, data);
    WritingFacts(H, s, k, p);
    AppendBlock(H, k.blocks[p], data);
    assert [] + H(data) == H(data) && Digests(H, []) == [];
    assert View(s', k', p)
      == View(s, k, p).(bytes := Some(Contents(s.fs)[p] + data), pending := PendingBuffer(s'.buffers, p),
                                             blocks := Some(k.blocks[p] + [data]));
    assert PathOk(H, k'.hashed, View(s', k', p), p) by {
      assert PathOk(H, k.hashed, View(s, k, p), p);
      assert (set b | b in k.blocks[p] + [data]) == (set b | b in k.blocks[p]) + {data};
    }
    OnePathStep(H, s, k, s', k', p);
  }

  lemma WrittenKeepsInv(H: Hasher, s: Sys, k: Hist, s': Sys, p: Path, data: Bytes)
    requires Inv(H, s, k) && p in k.open && p in k.blocks && Written(H, s, s', p, data)
    ensures Inv(H, s', WrittenHist(k, p, data))
  {
    WrittenPaths(H, s, k, s', p, data);
    SameRecordsStep(s, k, s', WrittenHist(k, p, data), p);
  }

  // ---------- steps that touch attributes only ----------

  lemma SetAttributesKeepsPath(m: Meta, i: SetAttrIn, wantsOut: bool, now: Timespec)
    ensures SetAttributes(m, i, wantsOut, now).0.path == m.path
    ensures SetAttributes(m, i, wantsOut, now).0.xattr == m.xattr
  {
  }

  /** The same records are live, under the same names and with the same attribute maps. */
  ghost predicate SameRecords(files: Files, files': Files) {
    && (forall h, r :: Live(files', h, r) <==> Live(files, h, r))
    && (forall h, r | Live(files', h, r) :: files'[h].list[r].path == files[h].list[r].path
                                             && files'[h].list[r].xattr == files[h].list[r].xattr)
  }

  /** The events that do no more than assign to records and attribute maps. */
  predicate AssignsOnly(e: Event) { e.ESetattr? || e.ESetxattr? || e.ERemovexattr? || e.ERead? || e.EOpendir? }

  /** Nothing the invariant speaks about has changed. */
  ghost predicate SameButAttributes(s: Sys, s': Sys) {
    && s'.fs == s.fs && s'.buffers == s.buffers && s'.handles == s.handles
    && s'.meta.nodes == s.meta.nodes && s'.meta.dirs.Keys == s.meta.dirs.Keys
    && FilesWF(s'.meta.files) && SameRecords(s.meta.files, s'.meta.files)
  }

  /** Assigning to a record without renaming it or giving it another attribute map. */
  lemma PutKeepsPaths(s: Store, l: Loc, m: Meta)
    requires FilesWF(s.files) && MetaAt(s, l).Some?
    requires m.path == MetaAt(s, l).value.path && m.xattr == MetaAt(s, l).value.xattr
    ensures var s' := Put(s, l, m);
      s'.nodes == s.nodes && s'.dirs.Keys == s.dirs.Keys && FilesWF(s'.files) && SameRecords(s.files, s'.files)
  {
    hide FilesWF, Respond;
    if l.FileLoc? {
      FillWF(s.files, l.h, l.r, m);
    }
  }

  lemma SetattrShape(s: Sys, p: Path, i: SetAttrIn, wantsOut: bool, now: Timespec)
    requires FilesWF(s.meta.files)
    ensures SameButAttributes(s, Setattr(s, p, i, wantsOut, now).sys)
  {
    if MetaOf(s.meta, p).Some? {
      SetAttributesKeepsPath(MetaOf(s.meta, p).value, i, wantsOut, now);
      PutKeepsPaths(s.meta, LocOf(s.meta, p).value, SetAttributes(MetaOf(s.meta, p).value, i, wantsOut, now).0);
    }
  }

  lemma SetxattrShape(s: Sys, p: Path, attr: Bytes, data: Bytes, flags: nat)
    requires FilesWF(s.meta.files)
    ensures SameButAttributes(s, Setxattr(s, p, attr, data, flags).sys)
  {
    hide FilesWF;
  }

  lemma RemovexattrShape(s: Sys, p: Path, attr: Bytes)
    requires FilesWF(s.meta.files)
    ensures SameButAttributes(s, Removexattr(s, p, attr).sys)
  {
    hide FilesWF;
  }

  lemma ReadShape(s: Sys, fd: nat, now: Timespec)
    requires FilesWF(s.meta.files)
    ensures SameButAttributes(s, Read(s, fd, now).sys)
  {
    if fd in s.handles {
      var l := FileLoc(s.handles[fd].hash, s.handles[fd].ref);
      if MetaAt(s.meta, l).Some? {
        PutKeepsPaths(s.meta, l, WithTime(MetaAt(s.meta, l).value, Some(now), None, None));
      }
    }
  }

  lemma OpenDirShape(s: Sys, p: Path, ok: bool, now: Timespec)
    requires FilesWF(s.meta.files)
    ensures SameButAttributes(s, OpenDir(s, p, ok, now).sys)
  {
    hide FilesWF;
  }

  lemma AttributesKeepInv(H: Hasher, s: Sys, k: Hist, s': Sys)
    requires Inv(H, s, k) && SameButAttributes(s, s')
    ensures Inv(H, s', k)
  {
    SameViewsStep(H, s, k, s');
  }

  // ---------- reading handles ----------

  /** Opening for reading, or closing what was opened for reading. */
  ghost predicate SameFiles(s: Sys, k: Hist, s': Sys) {
    && WF(s'.fs) && s'.fs.dir == s.fs.dir && Contents(s'.fs) == Contents(s.fs) && s'.fs.folders == s.fs.folders
    && s'.fs.dev == s.fs.dev
    && s'.meta == s.meta && s'.buffers == s.buffers
    && (forall fd | fd in s'.handles && s'.handles[fd].writing :: fd in s.handles && s.handles[fd] == s'.handles[fd])
    && (forall p | p in k.open :: Get(s'.handles, k.open[p]) == Get(s.handles, k.open[p])
                                  && Get(s'.fs.fds, k.open[p]) == Get(s.fs.fds, k.open[p]))
  }

  lemma ReadersKeepInv(H: Hasher, s: Sys, k: Hist, s': Sys)
    requires Inv(H, s, k) && SameFiles(s, k, s')
    ensures Inv(H, s', k)
  {
    SameViewsStep(H, s, k, s');
  }

  lemma WritersHaveDescriptors(H: Hasher, s: Sys, k: Hist)
    requires PathsOk(H, s, k)
    ensures forall q | q in k.open :: k.open[q] in s.handles && s.handles[k.open[q]].writing && k.open[q] in s.fs.fds
  {
    forall q | q in k.open ensures k.open[q] in s.handles && s.handles[k.open[q]].writing && k.open[q] in s.fs.fds {
      WritingFacts(H, s, k, q);
    }
  }

  lemma ReadOpened(s: Sys, k: Hist, fs: FS, fd: nat, i: nat, h: Handle)
    requires fd !in s.fs.fds && fd !in s.handles && !h.writing
    requires Shows(fs, s.fs.dir, Contents(s.fs), s.fs.fds[fd := i], s.fs)
    requires forall q | q in k.open :: k.open[q] in s.handles && k.open[q] in s.fs.fds
    ensures SameFiles(s, k, s.(fs := fs, handles := s.handles[fd := h]))
  {
  }

  lemma ReadOpenShape(H: Hasher, s: Sys, k: Hist, p: Path, fd: nat, ok: bool)
    requires Inv(H, s, k) && fd !in s.fs.fds && fd !in s.handles
    ensures SameFiles(s, k, OpenFile(s, p, fd, false, false, ok).sys)
  {
    WritersHaveDescriptors(H, s, k);
    if ok && p in s.fs.dir {
      var fs' := ReadOpenEffect(s.fs, p, fd);
      ReadOpened(s, k, fs', fd, s.fs.dir[p], OpenFile(s, p, fd, false, false, ok).sys.handles[fd]);
    }
  }

  lemma ReadCloseShape(H: Hasher, s: Sys, k: Hist, fd: nat, p: Path, o: Env)
    requires Inv(H, s, k) && fd in s.handles && !s.handles[fd].writing
    ensures SameFiles(s, k, Release(H, s, fd, p, o).sys)
  {
    hide WF;
    var fs' := CloseEffect(s.fs, fd);
    WritersHaveDescriptors(H, s, k);
  }

  // ---------- Lookup ----------

  /** The node entry of a file that has not been released may be made afresh. */
  ghost predicate LookedUp(s: Sys, s': Sys, p: Path, info: NodeInfo) {
    && s'.fs == s.fs && s'.buffers == s.buffers && s'.handles == s.handles
    && s'.meta.files == s.meta.files && s'.meta.dirs == s.meta.dirs
    && (s'.meta.nodes == s.meta.nodes || s'.meta.nodes == s.meta.nodes[p := info])
  }

  lemma LookupShape(H: Hasher, s: Sys, k: Hist, p: Path, x: Stat) returns (info: NodeInfo)
    requires Inv(H, s, k)
    ensures LookedUp(s, LookupPath(H, s, p, x).sys, p, info)
    ensures LookupPath(H, s, p, x).sys.meta.nodes != s.meta.nodes ==>
      Unreleased(k, p) && p in s.fs.dir && !info.isDir && info.hash == ZERO && info.ref == 0
      && info.stable.ino == VirtualIno(H, p, s.fs.dev, s.fs.dir[p])
  {
    hide WF;
    assert PathOk(H, k.hashed, View(s, k, p), p);
    var st := LstatOf(s.fs, p, x);
    info := NodeInfo(NewStable(H, p, st), st.mode, false, ZERO, 0);
  }

  lemma LookedUpKeepsInv(H: Hasher, s: Sys, k: Hist, s': Sys, p: Path, info: NodeInfo)
    requires Inv(H, s, k) && LookedUp(s, s', p, info)
    requires s'.meta.nodes != s.meta.nodes ==>
      Unreleased(k, p) && !info.isDir && info.hash == ZERO && info.ref == 0
    ensures Inv(H, s', k)
  {
    hide WF;
    assert PathOk(H, k.hashed, View(s, k, p), p);
    OnePathStep(H, s, k, s', k, p);
    SameRecordsStep(s, k, s', k, p);
  }

  // ---------- Mkdir and Rmdir ----------

  ghost predicate FolderMade(s: Sys, s': Sys, p: Path, info: NodeInfo) {
    && s'.fs == s.fs.(folders := s.fs.folders + {p}) && s'.buffers == s.buffers && s'.handles == s.handles
    && s'.meta.files == s.meta.files && s'.meta.dirs.Keys == s.meta.dirs.Keys + {p}
    && s'.meta.nodes == s.meta.nodes[p := info] && info.isDir
  }

  lemma MkdirShape(H: Hasher, s: Sys, p: Path, caller: Option<Owner>, st: Stat) returns (info: NodeInfo)
    requires Unused(s.fs, p) && p !in s.meta.nodes
    ensures FolderMade(s, MakeDir(H, s, p, caller, st, true, true).sys, p, info)
  {
    var stable := NewStable(H, p, st);
    info := NodeInfo(stable, st.mode, true, ZERO, 0);
    var s1 := CreateDirEntry(StoreDir(s.meta, p, stable, st.mode), p);
    var n := Instantiate(H, s.meta, p, st, true);
    assert n == Node(UpdateAllFromStat(s1, DirLoc(p), st, stable, p), Err(OK), stable, ZERO, 0);
    assert n.meta.dirs.Keys == s.meta.dirs.Keys + {p};
  }

  lemma FolderMadeKeepsInv(H: Hasher, s: Sys, k: Hist, s': Sys, p: Path, info: NodeInfo)
    requires Inv(H, s, k) && FolderMade(s, s', p, info) && UserPath(p) && Unused(s.fs, p)
    ensures Inv(H, s', k)
  {
    hide Names, Counted;
    assert PathOk(H, k.hashed, View(s, k, p), p);
    OnePathStep(H, s, k, s', k, p);
    SameRecordsStep(s, k, s', k, p);
  }

  ghost predicate FolderGone(s: Sys, s': Sys, p: Path) {
    && s'.fs == s.fs.(folders := s.fs.folders - {p}) && s'.buffers == s.buffers && s'.handles == s.handles
    && s'.meta.files == s.meta.files && s'.meta.dirs.Keys == s.meta.dirs.Keys - {p}
    && s'.meta.nodes == s.meta.nodes - {p}
  }

  lemma RmdirShape(s: Sys, parent: Path, p: Path, now: Timespec)
    requires p in s.fs.folders
    ensures FolderGone(s, RemoveDir(s, parent, p, true, now).sys, p)
  {
    TouchDirFrame(RemoveNode(RemoveDirEntry(s.meta, p), p), parent, now);
  }

  lemma FolderGoneKeepsInv(H: Hasher, s: Sys, k: Hist, s': Sys, p: Path)
    requires Inv(H, s, k) && FolderGone(s, s', p) && p in s.fs.folders
    ensures Inv(H, s', k)
  {
    hide Counted, PrivateInv;
    assert PathOk(H, k.hashed, View(s, k, p), p);
    OnePathStep(H, s, k, s', k, p);
    SameRecordsStep(s, k, s', k, p);
  }

  // ---------- Unlink ----------

  ghost predicate Unlinked(s: Sys, s': Sys, p: Path) {
    && Shows(s'.fs, s.fs.dir - {p}, Contents(s.fs) - {p}, s.fs.fds, s.fs)
    && s'.buffers == s.buffers && s'.handles == s.handles
    && p in s.meta.nodes && s'.meta.nodes == s.meta.nodes - {p} && s'.meta.dirs.Keys == s.meta.dirs.Keys
    && s'.meta.files == Remove(s.meta.files, s.meta.nodes[p].hash, s.meta.nodes[p].ref)
  }

  lemma UnlinkShape(s: Sys, parent: Path, p: Path, now: Timespec)
    requires WF(s.fs) && p in s.fs.dir && p in s.meta.nodes
    ensures Unlinked(s, Session.Unlink(s, parent, p, true, now).sys, p)
  {
    var fs' := UnlinkEffect(s.fs, p);
    TouchDirFrame(DropPath(s.meta, p), parent, now);
  }

  lemma UnlinkedRecords(s: Sys, k: Hist, s': Sys, p: Path)
    requires FilesWF(s.meta.files) && RecordsOk(s, k) && Unlinked(s, s', p)
    requires forall q | q != p :: View(s', UnlinkedHist(k, p), q) == View(s, k, q)
    ensures RecordsOk(s', UnlinkedHist(k, p))
  {
    var files, info := s.meta.files, s.meta.nodes[p];
    forall h, r | Live(s'.meta.files, h, r) && h != ZERO && s'.meta.files[h].list[r].path != []
      ensures Live(files, h, r) && files[h].list[r].path == s'.meta.files[h].list[r].path && !Owns(View(s, k, p), h, r)
    {
      RemoveLive(files, info.hash, info.ref, h, r);
    }
    RecordsStep(s, k, s', UnlinkedHist(k, p), p);
  }

  lemma UnlinkedPaths(H: Hasher, s: Sys, k: Hist, s': Sys, p: Path)
    requires PathsOk(H, s, k) && Unlinked(s, s', p) && p in s.fs.dir && p !in k.open
    ensures forall q | q != p :: View(s', UnlinkedHist(k, p), q) == View(s, k, q)
    ensures PathsOk(H, s', UnlinkedHist(k, p))
  {
    hide Contents;
    assert PathOk(H, k.hashed, View(s, k, p), p);
    OnePathStep(H, s, k, s', UnlinkedHist(k, p), p);
  }

  lemma UnlinkedKeepsInv(H: Hasher, s: Sys, k: Hist, s': Sys, p: Path)
    requires Inv(H, s, k) && Unlinked(s, s', p) && p in s.fs.dir && p !in k.open
    ensures Inv(H, s', UnlinkedHist(k, p))
  {
    hide WF;
    UnlinkedPaths(H, s, k, s', p);
    UnlinkedRecords(s, k, s', p);
    RemoveWF(s.meta.files, s.meta.nodes[p].hash, s.meta.nodes[p].ref);
  }

  // ---------- restart and sweep ----------

  ghost predicate Recovered(s: Sys, s': Sys, gone: set<Path>) {
    && Shows(s'.fs, s.fs.dir - gone, Contents(s.fs) - gone, map[], s'.fs) && s'.fs.folders == s.fs.folders - gone
    && s'.fs.dev == s.fs.dev
    && s'.buffers == map[] && s'.handles == map[]
    && s'.meta == Swept(s.meta, s.meta.nodes.Keys * gone)
  }

  lemma RecoverShape(H: Hasher, s: Sys, k: Hist, gone: set<Path>)
    requires WF(s.fs) && PathsOk(H, s, k)
    ensures Recovered(s, Recover(s, gone), gone)
  {
    var fs' := RestartEffect(s.fs, gone);
    assert s.meta.nodes.Keys - (fs'.dir.Keys + fs'.folders) == s.meta.nodes.Keys * gone by {
      forall q | q in s.meta.nodes ensures q in s.fs.dir || q in s.fs.folders {
        assert PathOk(H, k.hashed, View(s, k, q), q);
      }
    }
  }

  lemma RecoveredView(H: Hasher, s: Sys, k: Hist, s': Sys, gone: set<Path>, q: Path)
    requires PathsOk(H, s, k) && Recovered(s, s', gone)
    ensures var v, was := View(s', RecoveredHist(k, gone), q), View(s, k, q);
      if q in gone then Absent(v)
      else if q in k.open then Abandoned(v) && v.blocks == was.blocks && v.bytes == was.bytes
      else v == was
  {
    assert PathOk(H, k.hashed, View(s, k, q), q);
  }

  lemma RecoveredRecords(H: Hasher, s: Sys, k: Hist, s': Sys, gone: set<Path>)
    requires PathsOk(H, s, k) && Recovered(s, s', gone) && FilesWF(s.meta.files) && RecordsOk(s, k)
    ensures RecordsOk(s', RecoveredHist(k, gone))
  {
    hide Respond;
    var k' := RecoveredHist(k, gone);
    forall h, r ensures RecordOk(s', k', h, r) {
      if Live(s'.meta.files, h, r) && h != ZERO && s'.meta.files[h].list[r].path != [] {
        WithoutLive(s.meta.files, KeysOf(s.meta.nodes, s.meta.nodes.Keys * gone), h, r);
        var q := s'.meta.files[h].list[r].path;
        assert RecordOk(s, k, h, r);
        assert PathOk(H, k.hashed, View(s, k, q), q);
        RecoveredView(H, s, k, s', gone, q);
      }
    }
  }

  lemma RecoveredKeepsInv(H: Hasher, s: Sys, k: Hist, s': Sys, gone: set<Path>)
    requires Inv(H, s, k) && Recovered(s, s', gone)
    ensures Inv(H, s', RecoveredHist(k, gone))
  {
    var k' := RecoveredHist(k, gone);
    forall q ensures PathOk(H, k'.hashed, View(s', k', q), q) {
      assert PathOk(H, k.hashed, View(s, k, q), q);
      RecoveredView(H, s, k, s', gone, q);
    }
    RecoveredRecords(H, s, k, s', gone);
    WithoutWF(s.meta.files, KeysOf(s.meta.nodes, s.meta.nodes.Keys * gone));
    RecoveredDirs(H, s, k, s', gone);
  }

  lemma RecoveredDirs(H: Hasher, s: Sys, k: Hist, s': Sys, gone: set<Path>)
    requires PathsOk(H, s, k) && Recovered(s, s', gone) && s.meta.dirs.Keys == s.fs.folders
    ensures s'.meta.dirs.Keys == s'.fs.folders
  {
    forall q ensures q in s'.meta.dirs <==> q in s'.fs.folders {
      assert PathOk(H, k.hashed, View(s, k, q), q);
    }
  }

  // ---------- the same for the events of a write-once run ----------

  lemma CreateEvent(H: Hasher, s: Sys, k: Hist, e: Event) returns (info: NodeInfo)
    requires Inv(H, s, k) && Allowed(H, s, k, e) && e.ECreate?
    ensures Created(s, Step(H, s, e), e.p, e.fd, e.ino, info)
    ensures info.stable.ino == VirtualIno(H, e.p, s.fs.dev, e.ino)
    ensures e.p !in k.blocks && e.p !in k.open && e.p !in s.meta.nodes
  {
    assert PathOk(H, k.hashed, View(s, k, e.p), e.p);
    info := CreateShape(H, s, e.parent, e.p, e.fd, e.ino, e.trunc, e.caller, e.x, e.now);
  }

  lemma WriteEvent(H: Hasher, s: Sys, k: Hist, e: Event)
    requires Inv(H, s, k) && Allowed(H, s, k, e) && e.EWrite?
    ensures Written(H, s, Step(H, s, e), e.p, e.data)
    ensures e.p in s.fs.dir && e.p in k.open && e.p in k.blocks && Private(s.fs.dir, e.p)
  {
    WritingFacts(H, s, k, e.p);
    assert Private(s.fs.dir, e.p);
    WriteShape(H, s, e.fd, e.p, e.data, e.caller, e.now);
  }

  lemma MkdirEvent(H: Hasher, s: Sys, k: Hist, e: Event) returns (info: NodeInfo)
    requires Inv(H, s, k) && Allowed(H, s, k, e) && e.EMkdir?
    ensures if e.ok && Unused(s.fs, e.p)
            then FolderMade(s, Step(H, s, e), e.p, info) && e.p !in s.meta.nodes && e.p !in k.blocks
            else Step(H, s, e) == s
  {
    assert PathOk(H, k.hashed, View(s, k, e.p), e.p);
    info := NodeInfo(NewStable(H, e.p, e.x), e.x.mode, true, ZERO, 0);
    if e.ok && Unused(s.fs, e.p) {
      info := MkdirShape(H, s, e.p, e.caller, e.x);
    }
  }

  lemma RmdirEvent(H: Hasher, s: Sys, e: Event)
    requires e.ERmdir?
    ensures if e.ok && e.p in s.fs.folders then FolderGone(s, Step(H, s, e), e.p) else Step(H, s, e) == s
  {
    if e.ok && e.p in s.fs.folders {
      RmdirShape(s, e.parent, e.p, e.now);
    }
  }

  lemma UnlinkEvent(H: Hasher, s: Sys, k: Hist, e: Event)
    requires Inv(H, s, k) && Allowed(H, s, k, e) && e.EUnlink?
    ensures if e.ok && e.p in s.fs.dir then Unlinked(s, Step(H, s, e), e.p) && e.p in k.blocks && e.p !in k.open
            else Step(H, s, e) == s && (e.ok ==> UnlinkedHist(k, e.p) == k)
  {
    assert PathOk(H, k.hashed, View(s, k, e.p), e.p);
    if e.ok && e.p in s.fs.dir {
      UnlinkShape(s, e.parent, e.p, e.now);
    } else {
      assert e.ok ==> k.blocks - {e.p} == k.blocks && k.left - {e.p} == k.left;
    }
  }

  lemma AttributeEvent(H: Hasher, s: Sys, e: Event)
    requires FilesWF(s.meta.files) && AssignsOnly(e)
    ensures SameButAttributes(s, Step(H, s, e))
  {
    if e.ESetattr? {
      SetattrShape(s, e.p, e.i, e.wantsOut, e.now);
    } else if e.ERead? {
      ReadShape(s, e.fd, e.now);
    } else if e.EOpendir? {
      OpenDirShape(s, e.p, e.ok, e.now);
    } else if e.ESetxattr? {
      SetxattrShape(s, e.p, e.attr, e.data, e.flags);
    } else {
      RemovexattrShape(s, e.p, e.attr);
    }
  }

  lemma OpenEvent(H: Hasher, s: Sys, k: Hist, e: Event)
    requires Inv(H, s, k) && Allowed(H, s, k, e) && e.EOpen?
    ensures SameFiles(s, k, Step(H, s, e))
  {
    ReadOpenShape(H, s, k, e.p, e.fd, e.ok);
  }

  /** A Release of a write-once run either closes a reader or closes the file its handle has been writing. */
  lemma ReadCloseEvent(H: Hasher, s: Sys, k: Hist, e: Event)
    requires Inv(H, s, k) && Allowed(H, s, k, e) && e.ERelease? && !s.handles[e.fd].writing
    ensures SameFiles(s, k, Step(H, s, e)) && Recorded(H, s, k, e) == k
  {
    if e.p in k.open {
      WritingFacts(H, s, k, e.p);
      assert PathOk(H, k.hashed, View(s, k, e.p), e.p);
    }
    ReadCloseShape(H, s, k, e.fd, e.p, e.o);
  }

  lemma LookupEvent(H: Hasher, s: Sys, k: Hist, e: Event) returns (info: NodeInfo)
    requires Inv(H, s, k) && e.ELookup?
    ensures LookedUp(s, Step(H, s, e), e.p, info)
    ensures Step(H, s, e).meta.nodes != s.meta.nodes ==>
      Unreleased(k, e.p) && e.p in s.fs.dir && !info.isDir && info.hash == ZERO && info.ref == 0
      && info.stable.ino == VirtualIno(H, e.p, s.fs.dev, s.fs.dir[e.p])
  {
    info := LookupShape(H, s, k, e.p, e.x);
  }
}
