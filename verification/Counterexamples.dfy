/** Sequential runs that are not write-once and in which a promise fails: a user's bytes are lost or come back, a
    temporary name, a file without a record or a name without an entry is left, two records share an attribute map,
    a hard link loses its record. */
module Counterexamples {
  import opened Basics
  import opened Fingerprints
  import opened StoreModel
  import opened Underlying
  import opened Session
  import opened SequentialRuns
  import opened DedupTree
  import opened WriteOnce
  import opened WriteOnceSteps
  import opened WriteOnceRelease
  import opened Transparency
  import opened Sharing
  import opened Counting
  import opened AttributeMaps
  import opened Uniqueness
  import opened Scenarios
  import opened Limits
  import opened OwnAttributes
  import opened Ownership

  /** A sequential run in which no call reports an error. */
  ghost predicate Smooth(H: Hasher, es: seq<Event>) {
    Sequential(H, es) && forall i | 0 <= i < |es| :: Respond(H, After(H, es[..i]), es[i]).reply == Err(OK)
  }

  lemma Next(H: Hasher, es: seq<Event>, e: Event)
    requires Smooth(H, es) && Headroom(H, After(H, es), e) && Respond(H, After(H, es), e).reply == Err(OK)
    ensures Smooth(H, es + [e]) && After(H, es + [e]) == Step(H, After(H, es), e)
  {
    hide Respond;
    var all := es + [e];
    assert all[..|all| - 1] == es;
    forall i | 0 <= i < |all|
      ensures Headroom(H, After(H, all[..i]), all[i]) && Respond(H, After(H, all[..i]), all[i]).reply == Err(OK)
    {
      if i < |es| {
        assert all[..i] == es[..i];
      }
    }
  }

  // ---------- between the operations ----------

  /** Nothing is open, nothing is pending, the names are users' files and have entries. */
  ghost predicate AtRest(s: Sys) {
    && WF(s.fs) && FilesWF(s.meta.files) && XInv(s.meta)
    && s.handles == map[] && s.fs.fds == map[] && s.fs.folders == {}
    && (forall q :: PendingBuffer(s.buffers, q).None?)
    && s.meta.nodes.Keys == s.fs.dir.Keys && (forall q | q in s.fs.dir :: UserPath(q))
  }

  ghost predicate Reaches(H: Hasher, es: seq<Event>, s: Sys) { Smooth(H, es) && After(H, es) == s && AtRest(s) }

  lemma StartsAtRest(H: Hasher)
    ensures Reaches(H, [], INIT) && Contents(INIT.fs) == map[]
  {
  }

  /** p alone is open, for writing, on a handle with key (h, r), and these blocks have been written through it. */
  ghost predicate InProgress(H: Hasher, s: Sys, p: Path, fd: nat, h: Hash, r: nat, blocks: seq<Bytes>) {
    && WF(s.fs) && FilesWF(s.meta.files) && XInv(s.meta)
    && s.handles == map[fd := Handle(p, true, h, r)] && Private(s.fs.dir, p) && s.fs.fds == map[fd := s.fs.dir[p]]
    && s.fs.folders == {} && (forall q | q != p :: PendingBuffer(s.buffers, q).None?)
    && PendingBuffer(s.buffers, p) == (if blocks == [] then None else Some(Digests(H, blocks)))
    && s.meta.nodes.Keys == s.fs.dir.Keys && (forall q | q in s.fs.dir :: UserPath(q))
  }

  lemma InProgressFacts(H: Hasher, s: Sys, p: Path, fd: nat, h: Hash, r: nat, blocks: seq<Bytes>)
    requires InProgress(H, s, p, fd, h, r, blocks)
    ensures FinalHash(H, s, p) == Fingerprint(H, blocks) && WF(s.fs) && FilesWF(s.meta.files) && XInv(s.meta)
    ensures s.handles == map[fd := Handle(p, true, h, r)] && fd in s.fs.fds && p in s.fs.dir && s.fs.folders == {}
    ensures s.fs.fds == map[fd := s.fs.dir[p]] && p in s.meta.nodes
    ensures Unused(s.fs, TmpPath(p)) && Unused(s.fs, SparePath(p)) && p != []
  {
    ScratchIsUnused(s.fs, p);
  }

  lemma ScratchIsUnused(fs: FS, p: Path)
    requires fs.folders == {} && forall q | q in fs.dir :: UserPath(q)
    ensures Unused(fs, TmpPath(p)) && Unused(fs, SparePath(p))
  {
    ScratchNamesAreNotUserPaths(p);
  }

  // ---------- a new file ----------

  /** What has happened once a new file has been opened and written. */
  ghost predicate Begun(s: Sys, s': Sys, p: Path, bytes: Bytes, ino: nat, info: NodeInfo) {
    && s'.meta.files == s.meta.files && s'.meta.nodes == s.meta.nodes[p := info] && !info.isDir && info.hash == ZERO
    && s'.fs.dir == s.fs.dir[p := ino] && (forall q | q in s.fs.dir :: s.fs.dir[q] != ino)
    && Contents(s'.fs) == Contents(s.fs)[p := bytes]
  }

  lemma OpenNew(H: Hasher, es: seq<Event>, s: Sys, p: Path)
    returns (es': seq<Event>, s': Sys, fd: nat, ino: nat, info: NodeInfo)
    requires Reaches(H, es, s) && UserPath(p) && p !in s.fs.dir
    ensures Smooth(H, es') && After(H, es') == s'
    ensures InProgress(H, s', p, fd, ZERO, 0, []) && Begun(s, s', p, [], ino, info)
  {
    hide Respond, Contents, XInv, Names, Counted, Opened;
    fd := 0;
    ino := FreshNumber(s.fs.inodes.Keys);
    var e := ECreate(ROOT, p, fd, ino, true, false, None, NO_STAT, true, true, EPOCH);
    info := CreateNew(H, s, p, fd, ino);
    Next(H, es, e);
    es', s' := es + [e], Step(H, s, e);
    StepSharesMap(H, s, e);
    JustCreated(H, s, s', p, fd, ino, info);
  }

  lemma CreateNew(H: Hasher, s: Sys, p: Path, fd: nat, ino: nat) returns (info: NodeInfo)
    requires WF(s.fs) && Unused(s.fs, p) && p !in s.meta.nodes && ino !in s.fs.inodes && fd !in s.fs.fds
    ensures var r := Respond(H, s, ECreate(ROOT, p, fd, ino, true, false, None, NO_STAT, true, true, EPOCH));
      Created(s, r.sys, p, fd, ino, info) && r.reply == Err(OK)
  {
    info := CreateShape(H, s, ROOT, p, fd, ino, false, None, NO_STAT, EPOCH);
  }

  lemma JustCreated(H: Hasher, s: Sys, s': Sys, p: Path, fd: nat, ino: nat, info: NodeInfo)
    requires AtRest(s) && p !in s.fs.dir && UserPath(p) && ino !in s.fs.inodes && XInv(s'.meta)
    requires Created(s, s', p, fd, ino, info)
    ensures InProgress(H, s', p, fd, ZERO, 0, []) && Begun(s, s', p, [], ino, info)
  {
    NewInode(s.fs, ino);
    JustOpened(H, s, s', p, fd, ino, info);
  }

  lemma JustOpened(H: Hasher, s: Sys, s': Sys, p: Path, fd: nat, ino: nat, info: NodeInfo)
    requires AtRest(s) && p !in s.fs.dir && UserPath(p) && XInv(s'.meta) && Created(s, s', p, fd, ino, info)
    requires forall q | q in s.fs.dir :: s.fs.dir[q] != ino
    ensures InProgress(H, s', p, fd, ZERO, 0, [])
  {
    hide WF, Contents, FilesWF, XInv;
    assert s'.meta.nodes.Keys == s'.fs.dir.Keys;
    assert forall q :: PendingBuffer(s'.buffers, q) == PendingBuffer(s.buffers, q);
  }

  lemma NewInode(fs: FS, ino: nat)
    requires WF(fs) && ino !in fs.inodes
    ensures forall q | q in fs.dir :: fs.dir[q] != ino
  {
  }

  /** One more block, of which the kernel takes the first n bytes, at any offset. */
  lemma WriteMore(H: Hasher, es: seq<Event>, s: Sys, p: Path, fd: nat, blocks: seq<Bytes>, data: Bytes, off: nat,
                  n: nat)
    returns (es': seq<Event>, s': Sys)
    requires Smooth(H, es) && After(H, es) == s && InProgress(H, s, p, fd, ZERO, 0, blocks) && n <= |data|
    ensures Smooth(H, es') && After(H, es') == s' && InProgress(H, s', p, fd, ZERO, 0, blocks + [data])
    ensures s'.meta == s.meta && s'.fs.dir == s.fs.dir && p in s.fs.dir
    ensures Contents(s'.fs) == Contents(s.fs)[p := Splice(Contents(s.fs)[p], off, data[..n])]
  {
    hide Respond, Contents, Splice, XInv;
    var e := EWrite(fd, p, data, off, None, Some(n), EPOCH);
    WriteInto(H, s, p, fd, blocks, data, off, n);
    Next(H, es, e);
    es', s' := es + [e], Step(H, s, e);
  }

  lemma WriteInto(H: Hasher, s: Sys, p: Path, fd: nat, blocks: seq<Bytes>, data: Bytes, off: nat, n: nat)
    requires InProgress(H, s, p, fd, ZERO, 0, blocks) && n <= |data|
    ensures var r := Respond(H, s, EWrite(fd, p, data, off, None, Some(n), EPOCH));
      && r.reply == Err(OK) && InProgress(H, r.sys, p, fd, ZERO, 0, blocks + [data])
      && r.sys.meta == s.meta && r.sys.fs.dir == s.fs.dir
      && Contents(r.sys.fs) == Contents(s.fs)[p := Splice(Contents(s.fs)[p], off, data[..n])]
  {
    hide WF, FilesWF, XInv, Contents;
    assert !Live(s.meta.files, ZERO, 0) by { NoZeroReference(s.meta.files); }
    var fs' := PwriteEffect(s.fs, fd, off, data[..n], p);
    var s' := s.(buffers := Buffered(H, s, p, data, None), fs := fs');
    assert Respond(H, s, EWrite(fd, p, data, off, None, Some(n), EPOCH)) == Res(s', Err(OK));
    MoreDigests(H, s, p, blocks, data);
  }

  lemma NoZeroReference(files: Files)
    requires FilesWF(files)
    ensures !Live(files, ZERO, 0)
  {
  }

  lemma MoreDigests(H: Hasher, s: Sys, p: Path, blocks: seq<Bytes>, data: Bytes)
    requires PendingBuffer(s.buffers, p) == (if blocks == [] then None else Some(Digests(H, blocks)))
    ensures PendingBuffer(Buffered(H, s, p, data, None), p) == Some(Digests(H, blocks + [data]))
    ensures forall q | q != p :: PendingBuffer(Buffered(H, s, p, data, None), q) == PendingBuffer(s.buffers, q)
  {
    BufferedPending(H, s, p, data, None, p);
    AppendBlock(H, blocks, data);
    forall q | q != p ensures PendingBuffer(Buffered(H, s, p, data, None), q) == PendingBuffer(s.buffers, q) {
      BufferedPending(H, s, p, data, None, q);
    }
  }

  /** A new file, written in one block of which the kernel takes the first n bytes. */
  lemma BeginFile(H: Hasher, es: seq<Event>, s: Sys, p: Path, data: Bytes, n: nat)
    returns (es': seq<Event>, s': Sys, fd: nat, ino: nat, info: NodeInfo)
    requires Reaches(H, es, s) && UserPath(p) && p !in s.fs.dir && n <= |data|
    ensures Smooth(H, es') && After(H, es') == s'
    ensures InProgress(H, s', p, fd, ZERO, 0, [data]) && Begun(s, s', p, data[..n], ino, info)
  {
    hide Respond, InProgress, Reaches, Contents;
    var es1, s1;
    es1, s1, fd, ino, info := OpenNew(H, es, s, p);
    es', s' := WriteMore(H, es1, s1, p, fd, [], data, 0, n);
    assert [] + [data] == [data] && [] + data[..n] == data[..n];
    TwoPuts(Contents(s.fs), p, [], data[..n]);
  }

  /** The outcome of a Release whose calls all succeed. */
  function Fine(spareFd: nat, spareIno: nat): Env { ReleaseEnv(true, spareFd, spareIno) }

  /** A file in progress whose content is new is closed. */
  lemma CloseNew(H: Hasher, es: seq<Event>, s: Sys, p: Path, fd: nat, blocks: seq<Bytes>, h: Hash)
    returns (es': seq<Event>, s': Sys, m: Meta)
    requires Smooth(H, es) && After(H, es) == s && InProgress(H, s, p, fd, ZERO, 0, blocks)
    requires h == Fingerprint(H, blocks) != ZERO && h !in s.meta.files && !s.meta.nodes[p].isDir
    ensures Reaches(H, es', s') && s'.meta.files == s.meta.files[h := Entry(1, map[1 := m], 1)]
    ensures m.path == p && m.xattr.Some? && KeyedAs(s'.meta, p, h, 1)
    ensures forall q | q != p :: Get(s'.meta.nodes, q) == Get(s.meta.nodes, q)
    ensures s'.fs.dir == s.fs.dir && Contents(s'.fs) == Contents(s.fs)
  {
    hide Respond, MapsExist, WF, Contents, FilesWF;
    var e := ERelease(fd, p, Fine(0, 0));
    InProgressFacts(H, s, p, fd, ZERO, 0, blocks);
    var ending := ReleaseNew(H, s, fd, p, h);
    Next(H, es, e);
    es', s', m := es + [e], Step(H, s, e), ending.m;
    NoOldRecord(H, s, e);
    StepSharesMap(H, s, e);
    FirstOfItsKind(s.meta.files, h, m);
    BackAtRest(H, s, s', p, fd, h, blocks, ending);
  }

  /** A new file with content that is new. */
  lemma NewFile(H: Hasher, es: seq<Event>, s: Sys, p: Path, data: Bytes, n: nat, h: Hash)
    returns (es': seq<Event>, s': Sys, ino: nat, m: Meta)
    requires Reaches(H, es, s) && UserPath(p) && p !in s.fs.dir && n <= |data|
    requires h == Fingerprint(H, [data]) != ZERO && h !in s.meta.files
    ensures Reaches(H, es', s') && s'.meta.files == s.meta.files[h := Entry(1, map[1 := m], 1)]
    ensures m.path == p && m.xattr.Some? && KeyedAs(s'.meta, p, h, 1)
    ensures forall q | q != p :: Get(s'.meta.nodes, q) == Get(s.meta.nodes, q)
    ensures s'.fs.dir == s.fs.dir[p := ino] && Contents(s'.fs) == Contents(s.fs)[p := data[..n]]
    ensures forall q | q in s.fs.dir :: s.fs.dir[q] != ino
  {
    hide Respond, InProgress, Reaches, Contents;
    var es1, s1, fd, info;
    es1, s1, fd, ino, info := BeginFile(H, es, s, p, data, n);
    es', s', m := CloseNew(H, es1, s1, p, fd, [data], h);
  }

  lemma NoOldRecord(H: Hasher, s: Sys, e: Event)
    requires FilesWF(s.meta.files) && e.ERelease? && e.fd in s.handles && s.handles[e.fd].hash == ZERO
      && s.handles[e.fd].ref == 0
    ensures !Shares(H, s, e)
  {
  }

  lemma ReleaseNew(H: Hasher, s: Sys, fd: nat, p: Path, h: Hash) returns (e: Ending)
    requires Ready(s, fd, p) && h == FinalHash(H, s, p) && h !in s.meta.files
    ensures var r := Respond(H, s, ERelease(fd, p, Fine(0, 0)));
      && Released(s, r.sys, p, fd, h, s.fs.dir, e) && r.sys.fs.fds == s.fs.fds - {fd} && e.Filled? && e.m.xattr.Some?
      && r.reply == Err(OK)
  {
    hide WF, Contents, MetaAt, FillUnique;
    e := UniqueReleased(H, s, fd, p, Fine(0, 0), h, Taken(s, fd, p, h));
    FilledRecord(s, Release(H, s, fd, p, Fine(0, 0)).sys, p, fd, h, s.fs.dir, e, Taken(s, fd, p, h).meta);
  }

  lemma FirstOfItsKind(files: Files, h: Hash, m: Meta)
    requires h !in files
    ensures Ended(files, h, Filled(m)) == files[h := Entry(1, map[1 := m], 1)] && ClaimedRef(files, h) == 1
  {
    assert Claim(files, h) == files[h := Entry(1, map[1 := DEFAULT_META], 1)];
    assert map[1 := DEFAULT_META][1 := m] == map[1 := m];
  }

  lemma BackAtRest(H: Hasher, s: Sys, s': Sys, p: Path, fd: nat, h: Hash, blocks: seq<Bytes>, e: Ending)
    requires InProgress(H, s, p, fd, ZERO, 0, blocks) && XInv(s'.meta) && Room(s.meta.files, h)
    requires Released(s, s', p, fd, h, s.fs.dir, e) && s'.fs.fds == s.fs.fds - {fd}
    ensures AtRest(s')
  {
    hide WF, FilesWF, Contents;
    EndedAdvances(s.meta.files, h, e);
    assert s.meta.nodes.Keys + {p} == s.meta.nodes.Keys;
    forall q ensures PendingBuffer(s'.buffers, q).None? {
      if q != p {
        assert PendingBuffer(s.buffers, q).None?;
      }
    }
  }

  // ---------- a file's bytes are lost ----------

  /** A rename of a file to a new name. */
  lemma RenameFile(H: Hasher, es: seq<Event>, s: Sys, a: Path, b: Path) returns (es': seq<Event>, s': Sys)
    requires Reaches(H, es, s) && a in s.fs.dir && UserPath(b) && b !in s.fs.dir && !s.meta.nodes[a].isDir
    ensures Reaches(H, es', s') && s'.meta.files == s.meta.files
    ensures s'.fs.dir == (s.fs.dir - {a})[b := s.fs.dir[a]]
    ensures Contents(s'.fs) == (Contents(s.fs) - {a})[b := Contents(s.fs)[a]]
  {
    hide WF, FilesWF, Contents, TouchDir;
    var e := ERename(ROOT, a, ROOT, b, false, true, EPOCH);
    var fs' := RenameToNewEffect(s.fs, a, b);
    Next(H, es, e);
    es', s' := es + [e], Step(H, s, e);
    StepSharesMap(H, s, e);
    var t := Rekey(s.meta, a, b);
    TouchDirFrame(t, ROOT, EPOCH);
    TouchDirFrame(TouchDir(t, ROOT, EPOCH), ROOT, EPOCH);
  }

  /** A Release of known content whose record names q: every call succeeds, and p shows what q shows, whether or
      not p still exists. */
  lemma CloseKnown(H: Hasher, es: seq<Event>, s: Sys, p: Path, fd: nat, h: Hash, q: Path, m: Meta)
    returns (e: Event)
    requires Smooth(H, es) && After(H, es) == s
    requires WF(s.fs) && FilesWF(s.meta.files) && s.fs.folders == {} && Unused(s.fs, TmpPath(p))
      && Unused(s.fs, SparePath(p))
    requires fd in s.handles && s.handles[fd] == Handle(p, true, ZERO, 0) && FinalHash(H, s, p) == h != ZERO
    requires h in s.meta.files && s.meta.files[h] == Entry(1, map[1 := m], 1) && m.path == q && q in s.fs.dir
    ensures e.ERelease? && Smooth(H, es + [e]) && After(H, es + [e]) == Step(H, s, e)
    ensures Contents(Step(H, s, e).fs) == LinkedOverShows(s.fs, q, p)
    ensures p !in s.meta.nodes ==> p !in Step(H, s, e).meta.nodes
  {
    hide WF, Contents, FilesWF, Respond;
    var fs := SpareTree(H, s, fd, p);
    var spareFd := FreshNumber(fs.fds.Keys);
    var spareIno := FreshNumber(fs.inodes.Keys);
    var o := Fine(spareFd, spareIno);
    e := ERelease(fd, p, o);
    OneRecordIsRecent(m);
    LinksKnown(H, s, fd, p, o, h, m);
    ReleaseKeepsBytes(H, s, fd, p, o);
    ReleaseIs(H, s, fd, p, o);
    ReleaseAllWell(H, s, fd, p, o, h, m);
    Next(H, es, e);
  }

  /** The same for a file that is there and was written by the blocks of q's record. */
  lemma CloseCopy(H: Hasher, es: seq<Event>, s: Sys, p: Path, fd: nat, blocks: seq<Bytes>, q: Path, m: Meta)
    returns (e: Event)
    requires Smooth(H, es) && After(H, es) == s && InProgress(H, s, p, fd, ZERO, 0, blocks)
    requires var h := Fingerprint(H, blocks);
      h != ZERO && h in s.meta.files && s.meta.files[h] == Entry(1, map[1 := m], 1) && m.path == q
    requires q in s.fs.dir && s.fs.dir[q] != s.fs.dir[p]
    ensures e.ERelease? && Smooth(H, es + [e]) && q in Contents(s.fs)
    ensures Contents(After(H, es + [e]).fs) == Contents(s.fs)[p := Contents(s.fs)[q]]
  {
    hide Respond;
    InProgressFacts(H, s, p, fd, ZERO, 0, blocks);
    e := CloseKnown(H, es, s, p, fd, Fingerprint(H, blocks), q, m);
  }

  lemma LinksKnown(H: Hasher, s: Sys, fd: nat, p: Path, o: Env, h: Hash, m: Meta)
    requires fd in s.handles && s.handles[fd].writing && FinalHash(H, s, p) == h != ZERO && AllWell(o)
    requires h in s.meta.files && s.meta.files[h] == Entry(1, map[1 := m], 1) && m.path in s.fs.dir
    requires s.fs.folders == {} && Unused(s.fs, TmpPath(p)) && Recent(s.meta.files[h]) == Some(m)
    ensures Links(H, s, fd, p, o) && NewestRecord(H, s, p) == Some(m)
  {
    hide WF, FilesWF, Contents;
    ScratchNamesAreNotUserPaths(p);
    assert TakenClosed(s, fd, p, h).fs.dir == s.fs.dir && TakenClosed(s, fd, p, h).fs.folders == {};
  }

  lemma ReleaseAllWell(H: Hasher, s: Sys, fd: nat, p: Path, o: Env, h: Hash, m: Meta)
    requires WF(s.fs) && FilesWF(s.meta.files) && Links(H, s, fd, p, o) && NewestRecord(H, s, p) == Some(m)
    requires fd in s.handles && s.handles[fd] == Handle(p, true, ZERO, 0) && FinalHash(H, s, p) == h && AllWell(o)
    requires s.fs.folders == {} && Unused(s.fs, TmpPath(p)) && Unused(s.fs, SparePath(p))
    requires o.spareFd !in SpareTree(H, s, fd, p).fds && o.spareIno !in SpareTree(H, s, fd, p).inodes
    ensures Release(H, s, fd, p, o).reply == Err(OK)
    ensures p !in s.meta.nodes ==> p !in Release(H, s, fd, p, o).sys.meta.nodes
  {
    hide WF, Contents, FinishDuplicate;
    var fs2 := CloseEffect(s.fs, fd);
    var t, r := TakenClosed(s, fd, p, h), ClaimedRef(s.meta.files, h);
    NoZeroReference(s.meta.files);
    DuplicateBegins(H, s, fd, p, o, h);
    GoingOnFinishes(t, p, h, r, Some(m), None, BufferOwner(s, p), o);
    var renamed := LinkAndRename(t.fs, m.path, p);
    assert |SparePath(p)| == |p| + 8 && |TmpPath(p)| == |p| + 6;
    ScratchNamesAreNotUserPaths(p);
    var linked := Link(t.fs, m.path, TmpPath(p)).value;
    FinishAllWell(t.(fs := renamed), p, h, r, StatOf(linked, linked.dir[TmpPath(p)], o.st), BufferOwner(s, p), o);
  }

  lemma FinishAllWell(s: Sys, p: Path, h: Hash, r: nat, st: Stat, owner: Owner, o: Env)
    requires WF(s.fs) && Unused(s.fs, SparePath(p)) && AllWell(o) && o.spareFd !in s.fs.fds
      && o.spareIno !in s.fs.inodes
    ensures var out := FinishDuplicate(s, p, h, r, st, None, owner, o);
      out.reply == Err(OK) && out.sys.meta.nodes == s.meta.nodes
  {
    hide WF, Contents;
    SpareKeepsTree(s.fs, SparePath(p), o.spareFd, o.spareIno);
  }

  lemma OneRecordIsRecent(m: Meta)
    ensures Recent(Entry(1, map[1 := m], 1)) == Some(m)
  {
    assert ScanDown(map[1 := m], 1) == Some(1);
  }

  lemma TwoBlocksDiffer(H: Hasher, x: Bytes, y: Bytes)
    requires CollisionFree(H, Inputs(H, [x]) + Inputs(H, [y])) && x != y
    ensures Fingerprint(H, [x]) != Fingerprint(H, [y]) && Fingerprint(H, [x]) != ZERO && Fingerprint(H, [y]) != ZERO
  {
    var all := Inputs(H, [x]) + Inputs(H, [y]);
    FingerprintIdentifiesBlocks(H, [x], [y], all);
    FingerprintIdentifiesBlocks(H, [x], [], all);
    FingerprintIdentifiesBlocks(H, [y], [], all);
  }

  /** Write x to a, rename a to b, write y to a: the record of x still names a. */
  lemma StaleRecord(H: Hasher, a: Path, b: Path, x: Bytes, y: Bytes) returns (es: seq<Event>, s: Sys, m: Meta)
    requires CollisionFree(H, Inputs(H, [x]) + Inputs(H, [y])) && x != y && UserPath(a) && UserPath(b) && a != b
    ensures Reaches(H, es, s) && Contents(s.fs) == map[a := y, b := x] && s.fs.dir.Keys == {a, b}
    ensures var h := Fingerprint(H, [x]);
      h in s.meta.files && s.meta.files[h] == Entry(1, map[1 := m], 1) && m.path == a
  {
    hide Respond, Reaches, Fingerprint, CollisionFree, Contents;
    TwoBlocksDiffer(H, x, y);
    StartsAtRest(H);
    assert x[..|x|] == x && y[..|y|] == y;
    var es1, s1, i, m1 := NewFile(H, [], INIT, a, x, |x|, Fingerprint(H, [x]));
    var es2, s2 := RenameFile(H, es1, s1, a, b);
    var es3, s3, j, m2 := NewFile(H, es2, s2, a, y, |y|, Fingerprint(H, [y]));
    es, s, m := es3, s3, m1;
  }

  /** Then write x to c, which is made a link to a: it shows y, although every call has succeeded. */
  lemma RenameLosesBytes(H: Hasher, a: Path, b: Path, c: Path, x: Bytes, y: Bytes) returns (es: seq<Event>)
    requires CollisionFree(H, Inputs(H, [x]) + Inputs(H, [y])) && x != y
    requires UserPath(a) && UserPath(b) && UserPath(c) && a != b && b != c && a != c
    ensures Smooth(H, es) && Contents(After(H, es).fs) == map[a := y, b := x, c := y]
  {
    hide Respond, Reaches, InProgress, CollisionFree, Fingerprint, Release, FinalHash, Contents, WF, FilesWF;
    TwoBlocksDiffer(H, x, y);
    assert x[..|x|] == x;
    var es1, s1, m := StaleRecord(H, a, b, x, y);
    var es2, s2, fd, i, info := BeginFile(H, es1, s1, c, x, |x|);
    var e := CloseCopy(H, es2, s2, c, fd, [x], a, m);
    es := es2 + [e];
  }

  // ---------- other ways to lose bytes ----------

  /** x has been released as a, of which the kernel had taken n bytes; b is written with all of x. */
  lemma FileAndCopy(H: Hasher, a: Path, b: Path, x: Bytes, n: nat)
    returns (es: seq<Event>, s: Sys, fd: nat, m: Meta)
    requires CollisionFree(H, Inputs(H, [x])) && UserPath(a) && UserPath(b) && a != b && n <= |x|
    ensures Smooth(H, es) && After(H, es) == s && InProgress(H, s, b, fd, ZERO, 0, [x])
    ensures Contents(s.fs) == map[a := x[..n], b := x] && s.fs.dir.Keys == {a, b} && s.fs.dir[a] != s.fs.dir[b]
      && b in s.meta.nodes && s.meta.nodes[b].hash == ZERO
    ensures var h := Fingerprint(H, [x]);
      h != ZERO && h in s.meta.files && s.meta.files[h] == Entry(1, map[1 := m], 1) && m.path == a
  {
    hide Respond, Reaches, InProgress, Contents;
    FingerprintIdentifiesBlocks(H, [x], [], Inputs(H, [x]));
    StartsAtRest(H);
    var es1, s1, i, m1 := NewFile(H, [], INIT, a, x, n, Fingerprint(H, [x]));
    var ino, info;
    es, s, fd, ino, info := BeginFile(H, es1, s1, b, x, |x|);
    m := m1;
    assert x[..|x|] == x && map[a := x[..n]][b := x] == map[a := x[..n], b := x];
  }

  /** A pwrite() that takes part of a block: a has the fingerprint of the whole block, so that b, to which the
      whole block is written, loses what a lacks when it is closed. */
  lemma ShortWriteSpreads(H: Hasher, a: Path, b: Path, x: Bytes, n: nat) returns (es: seq<Event>, e: Event)
    requires CollisionFree(H, Inputs(H, [x])) && UserPath(a) && UserPath(b) && a != b && n <= |x|
    ensures Smooth(H, es + [e]) && e.ERelease?
    ensures Contents(After(H, es).fs) == map[a := x[..n], b := x]
    ensures Contents(After(H, es + [e]).fs) == map[a := x[..n], b := x[..n]]
  {
    hide Respond, InProgress, Contents;
    var s, fd, m;
    es, s, fd, m := FileAndCopy(H, a, b, x, n);
    e := CloseCopy(H, es, s, b, fd, [x], a, m);
    assert map[a := x[..n], b := x][b := x[..n]] == map[a := x[..n], b := x[..n]];
  }

  lemma UnlinkOpen(H: Hasher, es: seq<Event>, s: Sys, p: Path, fd: nat, blocks: seq<Bytes>)
    returns (e: Event, s': Sys)
    requires Smooth(H, es) && After(H, es) == s && InProgress(H, s, p, fd, ZERO, 0, blocks)
    ensures e.EUnlink? && e.p == p && Smooth(H, es + [e]) && After(H, es + [e]) == s'
    ensures WF(s'.fs) && s'.fs.dir == s.fs.dir - {p} && Contents(s'.fs) == Contents(s.fs) - {p}
    ensures s'.fs.folders == {} && p !in s'.meta.nodes && s'.handles == s.handles && s'.buffers == s.buffers
    ensures p in s.meta.nodes && (s.meta.nodes[p].hash == ZERO ==> s'.meta.files == s.meta.files)
  {
    hide WF, FilesWF, Contents;
    e := EUnlink(ROOT, p, true, EPOCH);
    s' := Step(H, s, e);
    var fs' := UnlinkEffect(s.fs, p);
    TouchDirFrame(DropPath(s.meta, p), ROOT, EPOCH);
    Next(H, es, e);
  }

  /** A file unlinked while it is open comes back under its name when it is closed, if its content is known;
      there is no node entry for it. */
  lemma UnlinkedFileComesBack(H: Hasher, a: Path, b: Path, x: Bytes) returns (es: seq<Event>, e: Event)
    requires CollisionFree(H, Inputs(H, [x])) && UserPath(a) && UserPath(b) && a != b
    ensures Smooth(H, es + [e]) && e.ERelease?
    ensures Contents(After(H, es).fs) == map[a := x]
    ensures Contents(After(H, es + [e]).fs) == map[a := x, b := x] && b !in After(H, es + [e]).meta.nodes
  {
    hide Respond, InProgress, Contents;
    assert x[..|x|] == x;
    var es1, s1, fd, m := FileAndCopy(H, a, b, x, |x|);
    var e2, s2 := UnlinkOpen(H, es1, s1, b, fd, [x]);
    InProgressFacts(H, s1, b, fd, ZERO, 0, [x]);
    es := es1 + [e2];
    assert map[a := x, b := x] - {b} == map[a := x] && map[a := x][b := x] == map[a := x, b := x];
    e := CloseKnown(H, es, s2, b, fd, Fingerprint(H, [x]), a, m);
  }

  /** Blocks are hashed in the order in which they are written, wherever they go: x then y written to a in order,
      and to b back to front, have one fingerprint, so that b shows a's bytes once it is closed. */
  lemma BlockOrderIsNotPlace(H: Hasher, a: Path, b: Path, x: Bytes, y: Bytes) returns (es: seq<Event>, e: Event)
    requires CollisionFree(H, Inputs(H, [x, y])) && UserPath(a) && UserPath(b) && a != b
    ensures Smooth(H, es + [e]) && e.ERelease?
    ensures Contents(After(H, es).fs) == map[a := x + y, b := y + x]
    ensures Contents(After(H, es + [e]).fs) == map[a := x + y, b := x + y]
  {
    hide Respond, Reaches, InProgress, Contents, Splice;
    var es1, s1, m := InOrder(H, a, x, y);
    var s, fd;
    es, s, fd := BackToFront(H, es1, s1, a, b, x, y);
    e := CloseCopy(H, es, s, b, fd, [x, y], a, m);
    assert map[a := x + y, b := y + x][b := x + y] == map[a := x + y, b := x + y];
  }

  lemma BackToFront(H: Hasher, es: seq<Event>, s: Sys, a: Path, b: Path, x: Bytes, y: Bytes)
    returns (es': seq<Event>, s': Sys, fd: nat)
    requires Reaches(H, es, s) && Contents(s.fs) == map[a := x + y] && s.fs.dir.Keys == {a} && UserPath(b) && a != b
    ensures Smooth(H, es') && After(H, es') == s' && InProgress(H, s', b, fd, ZERO, 0, [x, y])
    ensures Contents(s'.fs) == map[a := x + y, b := y + x] && s'.meta.files == s.meta.files
    ensures s'.fs.dir.Keys == {a, b} && s'.fs.dir[a] != s'.fs.dir[b]
  {
    hide Respond, Reaches, InProgress, Contents, Splice;
    var i, info;
    es', s', fd, i, info := TwoBlocks(H, es, s, b, x, y, |y|, 0);
    SplicedBothWays(x, y);
    assert map[a := x + y][b := y + x] == map[a := x + y, b := y + x];
  }

  lemma InOrder(H: Hasher, a: Path, x: Bytes, y: Bytes) returns (es: seq<Event>, s: Sys, m: Meta)
    requires CollisionFree(H, Inputs(H, [x, y])) && UserPath(a)
    ensures Reaches(H, es, s) && Contents(s.fs) == map[a := x + y] && s.fs.dir.Keys == {a}
    ensures var h := Fingerprint(H, [x, y]);
      h != ZERO && h in s.meta.files && s.meta.files[h] == Entry(1, map[1 := m], 1) && m.path == a
  {
    hide Respond, Reaches, InProgress, Contents, Splice;
    FingerprintIdentifiesBlocks(H, [x, y], [], Inputs(H, [x, y]));
    StartsAtRest(H);
    var es1, s1, fd, i, info := TwoBlocks(H, [], INIT, a, x, y, 0, |x|);
    SplicedBothWays(x, y);
    es, s, m := CloseNew(H, es1, s1, a, fd, [x, y], Fingerprint(H, [x, y]));
  }

  lemma SplicedBothWays(x: Bytes, y: Bytes)
    ensures Splice(Splice([], 0, x), |x|, y) == x + y
    ensures Splice(Splice([], |y|, x), 0, y) == y + x
  {
    hide Zeros;
    SpliceAppends(x, y);
    assert Splice([], 0, x) == x;
    if x != [] {
      assert Splice([], |y|, x) == Zeros(|y|) + x;
      SplicedFront(Zeros(|y|) + x, x, y);
    }
  }

  lemma SplicedFront(gap: Bytes, x: Bytes, y: Bytes)
    requires |gap| == |y| + |x| && gap[|y|..] == x
    ensures Splice(gap, 0, y) == y + x
  {
    assert gap[..0] + y == y;
    if x == [] {
      assert y + x == y;
    }
  }

  /** A new file of two blocks, each at its offset. */
  lemma TwoBlocks(H: Hasher, es: seq<Event>, s: Sys, p: Path, x: Bytes, y: Bytes, offX: nat, offY: nat)
    returns (es': seq<Event>, s': Sys, fd: nat, ino: nat, info: NodeInfo)
    requires Reaches(H, es, s) && UserPath(p) && p !in s.fs.dir
    ensures Smooth(H, es') && After(H, es') == s' && InProgress(H, s', p, fd, ZERO, 0, [x, y])
    ensures Begun(s, s', p, Splice(Splice([], offX, x), offY, y), ino, info)
  {
    hide Respond, InProgress, Reaches, Contents, Splice;
    var es1, s1, es2, s2;
    es1, s1, fd, ino, info := OpenNew(H, es, s, p);
    es2, s2 := WriteMore(H, es1, s1, p, fd, [], x, offX, |x|);
    assert [] + [x] == [x] && [x] + [y] == [x, y] && x[..|x|] == x && y[..|y|] == y;
    es', s' := WriteMore(H, es2, s2, p, fd, [x], y, offY, |y|);
    TwoPuts(Contents(s.fs), p, [], Splice([], offX, x));
    TwoPuts(Contents(s.fs), p, Splice([], offX, x), Splice(Splice([], offX, x), offY, y));
  }

  /** After any clean run in which p and q are copies: q's user has touched nothing, p's user opens p and writes
      y at its start, and q shows it. */
  lemma WriteReachesTheCopy(H: Hasher, p: Path, q: Path, x: Bytes, y: Bytes)
    returns (es: seq<Event>, e1: Event, e2: Event)
    requires CollisionFree(H, Inputs(H, [x])) && UserPath(p) && UserPath(q) && p != q
    ensures CleanRun(H, es) && PlainAfter(es) == map[p := x, q := x] == Contents(After(H, es).fs)
    ensures e1.EOpen? && e1.p == p && e2.EWrite? && e2.p == p && e2.data == y && Sequential(H, es + [e1] + [e2])
    ensures var z := Splice(x, 0, y); Contents(After(H, es + [e1] + [e2]).fs) == map[p := z, q := z]
  {
    hide Respond, Splice, Contents;
    es := TwoCopiesShareAnInode(H, p, q, x);
    DeduplicationIsInvisible(H, es);
    WriteOnceIsSequential(H, es);
    var s := After(H, es);
    var fd := FreshNumber(s.fs.fds.Keys + s.handles.Keys);
    e1, e2 := EOpen(p, fd, true, false, true), EWrite(fd, p, y, 0, None, Some(|y|), EPOCH);
    SequentialNext(H, es, e1);
    SequentialNext(H, es + [e1], e2);
    OpenThenWrite(H, s, e1, e2, q, x);
  }

  /** Two copies, and one of them renamed over the other: the call succeeds, both names are still there, and the
      old one has no entry any more. */
  lemma RenameOverCopyKeepsBoth(H: Hasher, p: Path, q: Path, x: Bytes) returns (es: seq<Event>, e: Event)
    requires CollisionFree(H, Inputs(H, [x])) && UserPath(p) && UserPath(q) && p != q
    ensures e == ERename(ROOT, p, ROOT, q, false, true, EPOCH) && Sequential(H, es + [e]) && CleanRun(H, es)
    ensures Contents(After(H, es).fs) == map[p := x, q := x] == Contents(After(H, es + [e]).fs)
    ensures p !in After(H, es + [e]).meta.nodes && Respond(H, After(H, es), e).reply == Err(OK)
  {
    hide Contents;
    es := TwoCopiesShareAnInode(H, p, q, x);
    e := ERename(ROOT, p, ROOT, q, false, true, EPOCH);
    DeduplicationIsInvisible(H, es);
    WriteOnceIsSequential(H, es);
    SequentialNext(H, es, e);
    CopiesAre(H, es, p, q);
    RenameOverCopy(H, es, ROOT, p, ROOT, q, EPOCH);
  }

  lemma CopiesAre(H: Hasher, es: seq<Event>, p: Path, q: Path)
    requires CleanRun(H, es) && p in PlainAfter(es) && q in PlainAfter(es) && p != q
    requires p in After(H, es).fs.dir && q in After(H, es).fs.dir && After(H, es).fs.dir[p] == After(H, es).fs.dir[q]
    ensures var k := HistAfter(H, es);
      IsClosed(k, p) && IsClosed(k, q) && k.blocks[p] != [] && k.blocks[p] == k.blocks[q]
    ensures p in After(H, es).meta.nodes && !After(H, es).meta.nodes[p].isDir && q !in After(H, es).fs.folders
  {
    hide Respond, WF, FilesWF;
    var s, k := After(H, es), HistAfter(H, es);
    OneInodePerContent(H, es, p, q);
    CleanRunsAreFull(H, es);
    assert PathOk(H, k.hashed, View(s, k, p), p) && PathOk(H, k.hashed, View(s, k, q), q);
  }

  lemma SequentialNext(H: Hasher, es: seq<Event>, e: Event)
    requires Sequential(H, es) && !e.ERelease?
    ensures Sequential(H, es + [e]) && After(H, es + [e]) == Step(H, After(H, es), e)
  {
    hide Respond;
    var all := es + [e];
    assert all[..|all| - 1] == es;
    forall i | 0 <= i < |all| ensures Headroom(H, After(H, all[..i]), all[i]) {
      if i < |es| {
        assert all[..i] == es[..i];
      }
    }
  }

  lemma OpenThenWrite(H: Hasher, s: Sys, e1: Event, e2: Event, q: Path, x: Bytes)
    requires e1.EOpen? && e2.EWrite? && e1 == EOpen(e2.p, e2.fd, true, false, true) && e2.off == 0
      && e2.written == Some(|e2.data|)
    requires Contents(s.fs) == map[e2.p := x, q := x] && e2.p in s.fs.dir && q in s.fs.dir && e2.p != q
      && s.fs.dir[e2.p] == s.fs.dir[q]
    ensures var z := Splice(x, 0, e2.data);
      Contents(Step(H, Step(H, s, e1), e2).fs) == map[e2.p := z, q := z]
  {
    hide Splice, UpdateTime, Contents;
    OpensInPlace(s, e2.p, e2.fd);
    OverwritesBoth(H, OpenFile(s, e2.p, e2.fd, true, false, true).sys, e2.fd, e2.p, q, x, e2.data, e2.caller, e2.now);
  }

  lemma OverwritesBoth(H: Hasher, s: Sys, fd: nat, p: Path, q: Path, x: Bytes, data: Bytes, caller: Option<Owner>,
                       now: Timespec)
    requires fd in s.handles && Contents(s.fs) == map[p := x, q := x] && p in s.fs.dir && q in s.fs.dir
    requires s.fs.dir[p] == s.fs.dir[q] && Get(s.fs.fds, fd) == Some(s.fs.dir[q])
    ensures var z := Splice(x, 0, data);
      Contents(Write(H, s, fd, p, data, 0, caller, Some(|data|), now).sys.fs) == map[p := z, q := z]
  {
    hide Splice, Write;
    WriteShows(H, s, fd, p, data, 0, caller, Some(|data|), now);
    assert data[..|data|] == data && At(s.fs, s.fs.dir[q]).bytes == Contents(s.fs)[q] == x;
    ContentsKeys(s.fs);
    ContentsKeys(Write(H, s, fd, p, data, 0, caller, Some(|data|), now).sys.fs);
  }

  // ---------- a file is written again ----------

  /** A file with a record, opened for writing, and written from its start. */
  lemma Reopen(H: Hasher, es: seq<Event>, s: Sys, p: Path, h: Hash, m: Meta, data: Bytes)
    returns (es': seq<Event>, s': Sys, m': Meta)
    requires Reaches(H, es, s) && s.fs.dir.Keys == {p} && KeyedAs(s.meta, p, h, 1)
      && Lookup(s.meta.files, h, 1) == Some(m)
    ensures Smooth(H, es') && After(H, es') == s' && InProgress(H, s', p, 0, h, 1, [data])
    ensures s'.meta.nodes == s.meta.nodes && s'.meta.files == Fill(s.meta.files, h, 1, m')
    ensures m'.path == m.path && m'.xattr == m.xattr
  {
    hide Respond;
    var e1 := EOpen(p, 0, true, false, true);
    var e2 := EWrite(0, p, data, 0, None, Some(|data|), EPOCH);
    var s1 := Step(H, s, e1);
    OpenAgain(H, s, p, h);
    Next(H, es, e1);
    s' := Step(H, s1, e2);
    es' := es + [e1] + [e2];
    m' := WriteAgain(H, s1, p, h, m, data);
    Next(H, es + [e1], e2);
    StepSharesMap(H, s1, e2);
  }

  lemma OpenAgain(H: Hasher, s: Sys, p: Path, h: Hash)
    requires AtRest(s) && s.fs.dir.Keys == {p} && KeyedAs(s.meta, p, h, 1)
    ensures var r := Respond(H, s, EOpen(p, 0, true, false, true));
      r.reply == Err(OK) && r.sys.meta == s.meta && InProgress(H, r.sys, p, 0, h, 1, [])
  {
    hide Contents;
    var fs' := ReadOpenEffect(s.fs, p, 0);
  }

  lemma WriteAgain(H: Hasher, s: Sys, p: Path, h: Hash, m: Meta, data: Bytes) returns (m': Meta)
    requires InProgress(H, s, p, 0, h, 1, []) && Lookup(s.meta.files, h, 1) == Some(m)
    ensures var r := Respond(H, s, EWrite(0, p, data, 0, None, Some(|data|), EPOCH));
      && r.reply == Err(OK) && r.sys.meta.nodes == s.meta.nodes && r.sys.meta.files == Fill(s.meta.files, h, 1, m')
      && (XInv(r.sys.meta) ==> InProgress(H, r.sys, p, 0, h, 1, [data]))
    ensures m'.path == m.path && m'.xattr == m.xattr
  {
    hide WF, FilesWF, Contents, Inv, Full;
    m' := WithTime(m, None, Some(EPOCH), None);
    var fs' := PwriteEffect(s.fs, 0, 0, data, p);
    assert data[..|data|] == data && [] + [data] == [data];
    FillWF(s.meta.files, h, 1, m');
    MoreDigests(H, s, p, [], data);
  }

  /** Write x to p, open p again and write x once more: the record names p itself, so rename() finds two links
      to one file and does nothing. The temporary name stays, p has lost its record, and the next Lookup of p
      takes the process down. */
  lemma RewriteLeavesTmp(H: Hasher, p: Path, x: Bytes) returns (es: seq<Event>)
    requires CollisionFree(H, Inputs(H, [x])) && UserPath(p)
    ensures Smooth(H, es)
    ensures var s := After(H, es);
      TmpPath(p) in s.fs.dir && p in s.meta.nodes && MetaOf(s.meta, p).None?
        && LookupPath(H, s, p, NO_STAT).reply == Panic
  {
    hide Respond, Reaches, LookupPath;
    var h := Fingerprint(H, [x]);
    FingerprintIdentifiesBlocks(H, [x], [], Inputs(H, [x]));
    StartsAtRest(H);
    var es1, s1, i, m := NewFile(H, [], INIT, p, x, |x|, h);
    var es2, s2, m' := Reopen(H, es1, s1, p, h, m, x);
    FillOnly(h, m, m');
    var e := ERelease(0, p, Fine(0, 0));
    InProgressFacts(H, s2, p, 0, h, 1, [x]);
    CloseAgain(H, s2, p, h, m');
    Next(H, es2, e);
    es := es2 + [e];
  }

  lemma FillOnly(h: Hash, m: Meta, m': Meta)
    ensures var files: Files := map[];
      Fill(files[h := Entry(1, map[1 := m], 1)], h, 1, m') == map[h := Entry(1, map[1 := m'], 1)]
  {
    assert map[1 := m][1 := m'] == map[1 := m'];
  }

  lemma CloseAgain(H: Hasher, s: Sys, p: Path, h: Hash, m: Meta)
    requires FilesWF(s.meta.files) && s.meta.files == map[h := Entry(1, map[1 := m], 1)] && m.path == p != []
      && h != ZERO
    requires s.handles == map[0 := Handle(p, true, h, 1)] && KeyedAs(s.meta, p, h, 1) && FinalHash(H, s, p) == h
    requires Unused(s.fs, TmpPath(p)) && p in s.fs.dir && s.fs.folders == {}
    ensures var s' := Step(H, s, ERelease(0, p, Fine(0, 0)));
      TmpPath(p) in s'.fs.dir && p in s'.meta.nodes && MetaOf(s'.meta, p).None?
        && LookupPath(H, s', p, NO_STAT).reply == Panic
    ensures Respond(H, s, ERelease(0, p, Fine(0, 0))).reply == Err(OK)
  {
    hide FilesWF, Release;
    OneRecordIsRecent(m);
    ReleaseLeavesTmp(H, s, 0, p, Fine(0, 0));
    ReleaseLeavesRecord(H, s, 0, p, Fine(0, 0));
    AfterCloseAgain(H, s, p, h, m);
  }

  lemma AfterCloseAgain(H: Hasher, s: Sys, p: Path, h: Hash, m: Meta)
    requires FilesWF(s.meta.files) && s.meta.files == map[h := Entry(1, map[1 := m], 1)] && m.path == p != []
      && h != ZERO
    requires s.handles == map[0 := Handle(p, true, h, 1)] && KeyedAs(s.meta, p, h, 1) && FinalHash(H, s, p) == h
    requires Unused(s.fs, TmpPath(p)) && p in s.fs.dir && s.fs.folders == {}
      && Recent(Entry(1, map[1 := m], 1)) == Some(m)
    ensures var s' := Release(H, s, 0, p, Fine(0, 0)).sys;
      KeyedAs(s'.meta, p, h, 2) && p in s'.fs.dir && p !in s'.fs.folders
    ensures Release(H, s, 0, p, Fine(0, 0)).reply == Err(OK)
  {
    hide FilesWF, Contents, WF, Respond, Inv, Full;
    ScratchNamesAreNotUserPaths(p);
    var t := TakenClosed(s, 0, p, h);
    DuplicateBegins(H, s, 0, p, Fine(0, 0), h);
    GoingOnFinishes(t, p, h, 2, Some(m), OldRecord(s, 0), BufferOwner(s, p), Fine(0, 0));
  }

  /** Write x to p, open p again and write y: two live records share one attribute map. */
  lemma RewriteSharesMap(H: Hasher, p: Path, x: Bytes, y: Bytes) returns (es: seq<Event>)
    requires CollisionFree(H, Inputs(H, [x]) + Inputs(H, [y])) && x != y && UserPath(p)
    ensures Smooth(H, es) && MapsExist(After(H, es).meta) && !Distinct(After(H, es).meta)
  {
    hide Respond, Reaches, InProgress, CollisionFree, Fingerprint, FilesWF, WF;
    var h := Fingerprint(H, [x]);
    TwoBlocksDiffer(H, x, y);
    StartsAtRest(H);
    var es1, s1, i, m := NewFile(H, [], INIT, p, x, |x|, h);
    var es2, s2, m' := Reopen(H, es1, s1, p, h, m, y);
    var e := ERelease(0, p, Fine(0, 0));
    InProgressFacts(H, s2, p, 0, h, 1, [y]);
    CloseIsFine(H, s2, p, 0, Fine(0, 0));
    Next(H, es2, e);
    es := es2 + [e];
    assert Shares(H, s2, e);
    StepSharesMap(H, s2, e);
  }

  lemma CloseIsFine(H: Hasher, s: Sys, p: Path, fd: nat, o: Env)
    requires fd in s.handles && s.handles[fd].writing && IsUnique(s.meta.files, FinalHash(H, s, p)) && o.fstatOk
      && fd in s.fs.fds
    ensures Respond(H, s, ERelease(fd, p, o)).reply == Err(OK)
  {
    hide FillUnique;
  }

  // ---------- a hard link ----------

  /** Write x to p and link q to it: their attributes are not independent. Unlink p: q has lost its record, and
      the next Lookup of q takes the process down. */
  lemma UnlinkTakesLinkedRecord(H: Hasher, p: Path, q: Path, x: Bytes) returns (es: seq<Event>, es': seq<Event>)
    requires CollisionFree(H, Inputs(H, [x])) && UserPath(p) && UserPath(q) && p != q
    ensures Smooth(H, es) && !Apart(After(H, es).meta, p, q)
    ensures Smooth(H, es') && q in After(H, es').fs.dir && MetaOf(After(H, es').meta, q).None?
    ensures LookupPath(H, After(H, es'), q, NO_STAT).reply == Panic
  {
    hide Respond;
    var h := Fingerprint(H, [x]);
    FingerprintIdentifiesBlocks(H, [x], [], Inputs(H, [x]));
    StartsAtRest(H);
    var es1, s1, i, m := NewFile(H, [], INIT, p, x, |x|, h);
    var e2, e3 := ELink(ROOT, p, q, 0, true, true, EPOCH), EUnlink(ROOT, p, true, EPOCH);
    LinkThenUnlink(H, s1, p, q, h, m);
    Next(H, es1, e2);
    es := es1 + [e2];
    Next(H, es, e3);
    es' := es + [e3];
  }

  lemma LinkThenUnlink(H: Hasher, s: Sys, p: Path, q: Path, h: Hash, m: Meta)
    requires FilesWF(s.meta.files) && KeyedAs(s.meta, p, h, 1) && Lookup(s.meta.files, h, 1) == Some(m) && h != ZERO
    requires p in s.fs.dir && q !in s.fs.dir && s.fs.folders == {} && q !in s.meta.nodes
    ensures var s1 := Step(H, s, ELink(ROOT, p, q, 0, true, true, EPOCH));
      var s2 := Step(H, s1, EUnlink(ROOT, p, true, EPOCH));
      && !Apart(s1.meta, p, q) && q in s2.fs.dir && MetaOf(s2.meta, q).None?
         && LookupPath(H, s2, q, NO_STAT).reply == Panic
    ensures Respond(H, s, ELink(ROOT, p, q, 0, true, true, EPOCH)).reply == Err(OK)
    ensures var s1 := Step(H, s, ELink(ROOT, p, q, 0, true, true, EPOCH));
      Respond(H, s1, EUnlink(ROOT, p, true, EPOCH)).reply == Err(OK)
  {
    hide Inv, WF, FilesWF, XInv, Allowed;
    HardLinkSharesKey(s, ROOT, p, q, 0, true, true, EPOCH);
    var s1 := HardLink(s, ROOT, p, q, 0, true, true, EPOCH).sys;
    TouchDirFrame(StoreReg(s.meta, q, s.meta.nodes[p].stable, 0, h, 1), ROOT, EPOCH);
    TouchDirFrame(DropPath(s1.meta, p), ROOT, EPOCH);
    RemoveLive(s1.meta.files, h, 1, h, 1);
  }

  // ---------- a Create that fails ----------

  function CreateBy(p: Path, caller: Owner, openOk: bool): Event {
    ECreate(ROOT, p, 0, 0, true, false, Some(caller), NO_STAT, openOk, true, EPOCH)
  }

  /** A user's Create fails at open(); another user's Create of the same name succeeds and is closed. The file
      belongs to the first user. */
  lemma FailedCreateKeepsOwner(H: Hasher, p: Path, first: Owner, second: Owner) returns (es: seq<Event>)
    requires UserPath(p) && first != second
    ensures es == [CreateBy(p, first, false), CreateBy(p, second, true), ERelease(0, p, Fine(0, 0))]
      && Smooth(H, es)
    ensures var m := MetaOf(After(H, es).meta, p); m.Some? && m.value.uid == first.uid && m.value.gid == first.gid
  {
    hide Respond;
    var e1, e2, e3 := CreateBy(p, first, false), CreateBy(p, second, true), ERelease(0, p, Fine(0, 0));
    assert After(H, []) == INIT;
    FailedCreate(H, e1);
    Next(H, [], e1);
    var s1 := Step(H, INIT, e1);
    SecondCreate(H, s1, p, second);
    Next(H, [e1], e2);
    var s2 := Step(H, s1, e2);
    assert [] + [e1] == [e1] && [e1] + [e2] == [e1, e2];
    StepNotes(H, INIT, e1, p);
    StepNotes(H, s1, e2, p);
    CloseIsFine(H, s2, p, 0, Fine(0, 0));
    Next(H, [e1, e2], e3);
    es := [e1, e2] + [e3];
    CloseEmpty(H, s2, p);
  }

  lemma FailedCreate(H: Hasher, e: Event)
    requires e.ECreate? && !e.openOk
    ensures Step(H, INIT, e).fs == INIT.fs && Step(H, INIT, e).meta == INIT.meta && Step(H, INIT, e).handles == map[]
    ensures PendingBuffer(Step(H, INIT, e).buffers, e.p).None? && Respond(H, INIT, e).reply == Err(OK)
  {
  }

  lemma SecondCreate(H: Hasher, s: Sys, p: Path, caller: Owner)
    requires s.fs == INIT.fs && s.meta == INIT.meta && s.handles == map[] && PendingBuffer(s.buffers, p).None?
      && UserPath(p)
    ensures var s' := Step(H, s, CreateBy(p, caller, true));
      && Private(s'.fs.dir, p) && Ready(s', 0, p) && FinalHash(H, s', p) == ZERO
      && s'.meta.files == map[] && !s'.meta.nodes[p].isDir
      && s'.fs.fds[0] == s'.fs.dir[p]
    ensures Respond(H, s, CreateBy(p, caller, true)).reply == Err(OK)
  {
    var info := CreateShape(H, s, ROOT, p, 0, 0, false, Some(caller), NO_STAT, EPOCH);
    var s' := Step(H, s, CreateBy(p, caller, true));
    assert PendingBuffer(s'.buffers, p).None?;
    ScratchIsUnused(s'.fs, p);
  }

  lemma CloseEmpty(H: Hasher, s: Sys, p: Path)
    requires Ready(s, 0, p) && FinalHash(H, s, p) == ZERO && s.meta.files == map[] && !s.meta.nodes[p].isDir
    requires s.fs.fds[0] == s.fs.dir[p] && Private(s.fs.dir, p)
    ensures var m := MetaOf(Step(H, s, ERelease(0, p, Fine(0, 0))).meta, p);
      m.Some? && m.value.uid == BufferOwner(s, p).uid && m.value.gid == BufferOwner(s, p).gid
  {
    hide FillUnique, WF, Contents;
    var e := UniqueReleased(H, s, 0, p, Fine(0, 0), ZERO, Taken(s, 0, p, ZERO));
    UniqueOwn(H, s, 0, p, Fine(0, 0), ZERO);
  }
}
