/** Deduplication is invisible through open descriptors too: a file opened for reading reads as its path does,
    although the Release of its writer may meanwhile give the path another inode. */
module Readers {
  import opened Basics
  import opened Fingerprints
  import opened StoreModel
  import opened Underlying
  import opened Session
  import opened SequentialRuns
  import opened DedupTree
  import opened WriteOnce
  import opened WriteOnceSteps
  import opened WriteOnceRelease
  import opened Transparency
  import opened StableInode

  // ---------- what open descriptors keep ----------

  /** Descriptors lead to inodes that exist. */
  ghost predicate Backed(fs: FS) {
    forall g | g in fs.fds :: fs.fds[g] in fs.inodes
  }

  /** Every descriptor but those in `gone` still leads to its inode, and reads the same bytes. */
  ghost predicate Keeps(fs: FS, fs': FS, gone: set<nat>) {
    && Backed(fs')
    && forall g | g in fs.fds && g !in gone ::
         Get(fs'.fds, g) == Some(fs.fds[g]) && At(fs', fs.fds[g]).bytes == At(fs, fs.fds[g]).bytes
  }

  lemma KeepsThen(fs: FS, mid: FS, fs': FS, gone: set<nat>, more: set<nat>)
    requires Keeps(fs, mid, gone) && Keeps(mid, fs', more) && more !! (fs.fds.Keys - gone)
    ensures Keeps(fs, fs', gone)
  {
  }

  lemma ReapKeeps(fs: FS, i: nat)
    requires Backed(fs)
    ensures Keeps(fs, Reap(fs, i), {})
  {
  }

  lemma LinkKeeps(fs: FS, a: Path, b: Path)
    requires Backed(fs) && Link(fs, a, b).Some?
    ensures Keeps(fs, Link(fs, a, b).value, {})
  {
  }

  lemma ScratchKeeps(fs: FS, p: Path, ok: bool)
    requires Backed(fs)
    ensures Keeps(fs, Scratch(fs, p, ok), {})
  {
    if ok && p in fs.dir {
      ReapKeeps(Unhook(fs, p), fs.dir[p]);
    }
  }

  lemma RenameKeeps(fs: FS, a: Path, b: Path)
    requires Backed(fs) && Rename(fs, a, b).Some?
    ensures Keeps(fs, Rename(fs, a, b).value, {})
  {
    if b in fs.dir && fs.dir[b] != fs.dir[a] {
      ReapKeeps(Move(fs, a, b), fs.dir[b]);
    }
  }

  lemma CloseKeeps(fs: FS, fd: nat)
    requires Backed(fs)
    ensures Keeps(fs, Close(fs, fd), {fd})
  {
    if fd in fs.fds {
      ReapKeeps(fs.(fds := fs.fds - {fd}), fs.fds[fd]);
    }
  }

  lemma OpenCreateKeeps(fs: FS, p: Path, fd: nat, ino: nat)
    requires Backed(fs) && OpenCreate(fs, p, fd, ino).Some? && fd !in fs.fds && ino !in fs.inodes
      && (p in fs.dir ==> fs.dir[p] in fs.inodes)
    ensures Keeps(fs, OpenCreate(fs, p, fd, ino).value, {})
  {
  }

  lemma FinishKeeps(s: Sys, p: Path, h: Hash, ref: nat, st: Stat, was: Option<Meta>, owner: Owner, o: Env)
    requires Backed(s.fs) && o.spareFd !in s.fs.fds && o.spareIno !in s.fs.inodes && SparePath(p) !in s.fs.dir
    ensures Keeps(s.fs, FinishDuplicate(s, p, h, ref, st, was, owner, o).sys.fs, {})
  {
    var outcome := OpenCreate(s.fs, SparePath(p), o.spareFd, o.spareIno);
    if was.None? && o.spareOk && outcome.Some? {
      var fs1 := Close(outcome.value, o.spareFd);
      OpenCreateKeeps(s.fs, SparePath(p), o.spareFd, o.spareIno);
      CloseKeeps(outcome.value, o.spareFd);
      KeepsThen(s.fs, outcome.value, fs1, {}, {o.spareFd});
      ScratchKeeps(fs1, SparePath(p), o.spareUnlinkOk);
      KeepsThen(s.fs, fs1, Scratch(fs1, SparePath(p), o.spareUnlinkOk), {}, {});
    }
  }

  lemma DuplicateKeeps(s: Sys, p: Path, h: Hash, ref: nat, rec: Option<Meta>, was: Option<Meta>, owner: Owner, o: Env)
    requires Backed(s.fs) && SparePath(p) !in s.fs.dir
    requires !GivesUp(s, p, rec, o) ==>
      var renamed := Rename(Link(s.fs, rec.value.path, TmpPath(p)).value, TmpPath(p), p).value;
      o.spareFd !in renamed.fds && o.spareIno !in renamed.inodes
    ensures Keeps(s.fs, ReleaseDuplicate(s, p, h, ref, rec, was, owner, o).sys.fs, {})
  {
    hide FinishDuplicate, Scratch;
    ScratchNamesAreNotUserPaths(p);
    assert |SparePath(p)| == |p| + 8 && |TmpPath(p)| == |p| + 6;
    if rec.Some? && o.linkOk && Link(s.fs, rec.value.path, TmpPath(p)).Some? {
      var linked := Link(s.fs, rec.value.path, TmpPath(p)).value;
      LinkKeeps(s.fs, rec.value.path, TmpPath(p));
      ScratchKeeps(linked, TmpPath(p), o.tmpUnlinkOk);
      KeepsThen(s.fs, linked, Scratch(linked, TmpPath(p), o.tmpUnlinkOk), {}, {});
      if !GivesUp(s, p, rec, o) {
        var renamed := Rename(linked, TmpPath(p), p).value;
        var st := StatOf(linked, linked.dir[TmpPath(p)], o.st);
        GoingOnFinishes(s, p, h, ref, rec, was, owner, o);
        RenameKeeps(linked, TmpPath(p), p);
        KeepsThen(s.fs, linked, renamed, {}, {});
        FinishKeeps(s.(fs := renamed), p, h, ref, st, was, owner, o);
        KeepsThen(s.fs, renamed, FinishDuplicate(s.(fs := renamed), p, h, ref, st, was, owner, o).sys.fs, {}, {});
      }
    }
  }

  lemma ReleaseKeepsReaders(H: Hasher, s: Sys, fd: nat, p: Path, o: Env)
    requires Backed(s.fs) && SparePath(p) !in s.fs.dir
    requires o.spareFd !in SpareTree(H, s, fd, p).fds && o.spareIno !in SpareTree(H, s, fd, p).inodes
    ensures Keeps(s.fs, Release(H, s, fd, p, o).sys.fs, {fd})
  {
    CloseKeeps(s.fs, fd);
    if fd in s.handles && s.handles[fd].writing && !IsUnique(s.meta.files, FinalHash(H, s, p)) {
      var h := FinalHash(H, s, p);
      var t, rec := TakenClosed(s, fd, p, h), Recent(CreateEntry(s.meta.files, h)[h]);
      var was := Lookup(s.meta.files, s.handles[fd].hash, s.handles[fd].ref);
      DuplicateKeeps(t, p, h, ClaimedRef(s.meta.files, h), rec, was, BufferOwner(s, p), o);
      var r := ClaimedRef(s.meta.files, h);
      KeepsThen(s.fs, t.fs, ReleaseDuplicate(t, p, h, r, rec, was, BufferOwner(s, p), o).sys.fs, {fd}, {});
    }
  }

  // ---------- a reader of p ----------

  /** fd reads what p shows: from p's own inode while p is being written, and never from the inode of another
      file that is being written. */
  ghost predicate Reads(s: Sys, k: Hist, fd: nat, p: Path) {
    && fd in s.handles && !s.handles[fd].writing && fd in s.fs.fds && p in k.blocks
    && At(s.fs, s.fs.fds[fd]).bytes == Flatten(k.blocks[p])
    && (p in k.open ==> p in s.fs.dir && s.fs.fds[fd] == s.fs.dir[p])
    && (forall x | x in k.open && x != p && x in s.fs.dir :: s.fs.dir[x] != s.fs.fds[fd])
  }

  lemma OpenReads(H: Hasher, s: Sys, k: Hist, fd: nat, p: Path)
    requires Inv(H, s, k) && Allowed(H, s, k, EOpen(p, fd, false, false, true)) && p in k.blocks
    ensures Reads(Step(H, s, EOpen(p, fd, false, false, true)), k, fd, p)
  {
    assert PathOk(H, k.hashed, View(s, k, p), p);
    var fs' := ReadOpenEffect(s.fs, p, fd);
    assert Contents(fs')[p] == Contents(s.fs)[p];
    forall x | x in k.open && x != p && x in s.fs.dir ensures s.fs.dir[x] != s.fs.dir[p] {
      assert Private(s.fs.dir, x);
    }
  }

  /** Nothing a reader depends on has changed. */
  lemma SameTreeReads(s: Sys, k: Hist, s': Sys, k': Hist, fd: nat, p: Path)
    requires Reads(s, k, fd, p) && p in k'.blocks && k'.blocks[p] == k.blocks[p]
    requires Get(s'.handles, fd) == Some(s.handles[fd]) && Get(s'.fs.fds, fd) == Some(s.fs.fds[fd])
    requires At(s'.fs, s.fs.fds[fd]).bytes == At(s.fs, s.fs.fds[fd]).bytes
    requires k'.open.Keys <= k.open.Keys
    requires forall x | x in k'.open :: Get(s'.fs.dir, x) == Get(s.fs.dir, x)
    ensures Reads(s', k', fd, p)
  {
    assert p in k'.open ==> Get(s'.fs.dir, p) == Get(s.fs.dir, p);
  }

  lemma CreateReads(H: Hasher, s: Sys, k: Hist, e: Event, fd: nat, p: Path)
    requires Inv(H, s, k) && Reads(s, k, fd, p) && Allowed(H, s, k, e) && e.ECreate?
    ensures Reads(Step(H, s, e), Recorded(H, s, k, e), fd, p)
  {
    hide Respond;
    assert PathOk(H, k.hashed, View(s, k, e.p), e.p);
    CreateFds(H, s, e);
    CreatedReads(s, k, Step(H, s, e), e.p, e.fd, e.ino, fd, p);
  }

  lemma CreateFds(H: Hasher, s: Sys, e: Event)
    requires e.ECreate? && Unused(s.fs, e.p) && e.openOk && e.fstatOk
    ensures Step(H, s, e).fs == OpenCreate(s.fs, e.p, e.fd, e.ino).value
    ensures forall g | g in s.handles && g != e.fd :: Get(Step(H, s, e).handles, g) == Some(s.handles[g])
  {
  }

  lemma CreatedReads(s: Sys, k: Hist, s': Sys, q: Path, g: nat, ino: nat, fd: nat, p: Path)
    requires Reads(s, k, fd, p) && Unused(s.fs, q) && q !in k.blocks && g !in s.handles && g !in s.fs.fds
    requires ino !in s.fs.inodes && WF(s.fs) && s'.fs == OpenCreate(s.fs, q, g, ino).value
    requires forall x | x in s.handles && x != g :: Get(s'.handles, x) == Some(s.handles[x])
    ensures Reads(s', CreatedHist(k, q, g), fd, p)
  {
    assert s.fs.fds[fd] in s.fs.inodes && Get(s'.handles, fd) == Some(s.handles[fd]);
  }

  lemma WriteReads(H: Hasher, s: Sys, k: Hist, e: Event, fd: nat, p: Path)
    requires Inv(H, s, k) && Reads(s, k, fd, p) && Allowed(H, s, k, e) && e.EWrite?
    ensures Reads(Step(H, s, e), Recorded(H, s, k, e), fd, p)
  {
    hide WF;
    WritingFacts(H, s, k, e.p);
    assert Private(s.fs.dir, e.p) && PathOk(H, k.hashed, View(s, k, e.p), e.p);
    WriteIs(H, s, e.fd, e.p, e.data, e.off, e.caller, e.now);
    SpliceAppends(Contents(s.fs)[e.p], e.data);
    AppendBlock(H, k.blocks[e.p], e.data);
    assert Step(H, s, e).fs.fds == s.fs.fds && Step(H, s, e).fs.dir == s.fs.dir && Step(H, s, e).handles == s.handles;
  }

  lemma ReleaseReads(H: Hasher, s: Sys, k: Hist, e: Event, fd: nat, p: Path)
    requires Inv(H, s, k) && Reads(s, k, fd, p) && Allowed(H, s, k, e) && e.ERelease? && e.fd != fd
    requires CollisionFree(H, Recorded(H, s, k, e).hashed)
    ensures Reads(Step(H, s, e), Recorded(H, s, k, e), fd, p)
  {
    hide Release, Respond;
    ReleaseIs(H, s, e.fd, e.p, e.o);
    assert SparePath(e.p) !in s.fs.dir by {
      ScratchNamesAreNotUserPaths(e.p);
      UnusedScratch(H, s, k, SparePath(e.p));
    }
    ReleaseKeepsReaders(H, s, e.fd, e.p, e.o);
    if s.handles[e.fd].writing {
      assert Get(k.open, e.p) == Some(e.fd);
      var dir, ending, q := ReleaseBranch(H, s, k, e.fd, e.p, e.o);
      WritingFacts(H, s, k, e.p);
      BranchDir(s, k, Step(H, s, e), e.p, FinalHash(H, s, e.p), e.o, dir, ending, q);
      SameTreeReads(s, k, Step(H, s, e), Recorded(H, s, k, e), fd, p);
    } else {
      ReadCloseEvent(H, s, k, e);
      ReadCloseTree(H, s, e.fd, e.p, e.o);
      SameTreeReads(s, k, Step(H, s, e), k, fd, p);
    }
  }

  lemma ReadCloseTree(H: Hasher, s: Sys, fd: nat, p: Path, o: Env)
    requires fd in s.handles && !s.handles[fd].writing
    ensures Release(H, s, fd, p, o) == Res(s.(fs := Close(s.fs, fd), handles := s.handles - {fd}), Err(OK))
    ensures Close(s.fs, fd).dir == s.fs.dir
  {
  }

  /** What the remaining events leave of the tree, for files that are not unlinked. */
  ghost predicate KeepsTree(s: Sys, s': Sys, p: Path) {
    && (forall g | g in s.handles :: Get(s'.handles, g) == Some(s.handles[g]))
    && Keeps(s.fs, s'.fs, {})
    && (forall x | x != p :: Get(s'.fs.dir, x) == Get(s.fs.dir, x))
  }

  lemma UnlinkTree(H: Hasher, s: Sys, e: Event)
    requires e.EUnlink? && Backed(s.fs)
    ensures KeepsTree(s, Step(H, s, e), e.p)
    ensures e.ok || Step(H, s, e) == s
  {
    if e.ok && e.p in s.fs.dir {
      ScratchKeeps(s.fs, e.p, true);
    }
  }

  lemma UnlinkReads(H: Hasher, s: Sys, k: Hist, e: Event, fd: nat, p: Path)
    requires Inv(H, s, k) && Reads(s, k, fd, p) && Allowed(H, s, k, e) && e.EUnlink? && p in Recorded(H, s, k, e).blocks
    ensures Reads(Step(H, s, e), Recorded(H, s, k, e), fd, p)
  {
    hide Respond, Reads;
    UnlinkTree(H, s, e);
    TreeReads(s, k, Step(H, s, e), Recorded(H, s, k, e), e.p, fd, p);
  }

  lemma TreeReads(s: Sys, k: Hist, s': Sys, k': Hist, q: Path, fd: nat, p: Path)
    requires Reads(s, k, fd, p) && KeepsTree(s, s', q) && q !in k'.open
    requires p in k'.blocks && k'.blocks[p] == k.blocks[p] && k'.open == k.open
    ensures Reads(s', k', fd, p)
  {
    SameTreeReads(s, k, s', k', fd, p);
  }

  lemma OpenTree(H: Hasher, s: Sys, e: Event)
    requires Backed(s.fs) && e.EOpen? && e.fd !in s.handles && e.fd !in s.fs.fds && !e.trunc
    requires e.p in s.fs.dir ==> s.fs.dir[e.p] in s.fs.inodes
    ensures KeepsTree(s, Step(H, s, e), ROOT) && Step(H, s, e).fs.dir == s.fs.dir
  {
  }

  lemma OtherTree(H: Hasher, s: Sys, e: Event)
    requires Backed(s.fs) && (e.EMkdir? || e.ERmdir? || e.ELookup? || AssignsOnly(e))
    ensures KeepsTree(s, Step(H, s, e), ROOT) && Step(H, s, e).fs.dir == s.fs.dir
  {
    hide Respond;
    OtherFiles(H, s, e);
  }

  lemma OtherFiles(H: Hasher, s: Sys, e: Event)
    requires e.EMkdir? || e.ERmdir? || e.ELookup? || AssignsOnly(e)
    ensures Step(H, s, e).handles == s.handles && Step(H, s, e).fs == s.fs.(folders := Step(H, s, e).fs.folders)
  {
    hide Instantiate, UpdateAllFromStat, WF, FilesWF, MetaOf;
  }

  lemma OtherReads(H: Hasher, s: Sys, k: Hist, e: Event, fd: nat, p: Path)
    requires Inv(H, s, k) && Reads(s, k, fd, p) && Allowed(H, s, k, e)
    requires e.EOpen? || e.EMkdir? || e.ERmdir? || e.ELookup? || AssignsOnly(e)
    ensures Reads(Step(H, s, e), Recorded(H, s, k, e), fd, p)
  {
    hide Respond;
    if e.EOpen? {
      OpenTree(H, s, e);
    } else {
      OtherTree(H, s, e);
    }
    SameTreeReads(s, k, Step(H, s, e), k, fd, p);
  }

  /** The events after which the descriptor is gone. */
  predicate Closes(e: Event, fd: nat) { (e.ERelease? && e.fd == fd) || e.ERecover? }

  lemma StepReads(H: Hasher, s: Sys, k: Hist, e: Event, fd: nat, p: Path)
    requires Inv(H, s, k) && Reads(s, k, fd, p) && Allowed(H, s, k, e) && CollisionFree(H, Recorded(H, s, k, e).hashed)
    requires p in Recorded(H, s, k, e).blocks && !Closes(e, fd)
    ensures Reads(Step(H, s, e), Recorded(H, s, k, e), fd, p)
  {
    hide Respond;
    if e.ECreate? {
      CreateReads(H, s, k, e, fd, p);
    } else if e.EWrite? {
      WriteReads(H, s, k, e, fd, p);
    } else if e.ERelease? {
      ReleaseReads(H, s, k, e, fd, p);
    } else if e.EUnlink? {
      UnlinkReads(H, s, k, e, fd, p);
    } else {
      OtherReads(H, s, k, e, fd, p);
    }
  }

  lemma StepKeepsHandle(H: Hasher, s: Sys, e: Event, fd: nat)
    requires fd in s.handles && !Closes(e, fd) && (e.ECreate? || e.EOpen? ==> e.fd != fd)
    ensures Get(Step(H, s, e).handles, fd) == Some(s.handles[fd])
  {
    hide Instantiate, ReleaseUnique, ReleaseDuplicate, UpdateAllFromStat, MetaOf, Rekey;
    if e.ERelease? {
      ReleaseHandles(H, s, e.fd, e.p, e.o);
    }
  }

  lemma ReleaseHandles(H: Hasher, s: Sys, fd: nat, p: Path, o: Env)
    ensures Release(H, s, fd, p, o).sys.handles == s.handles - {fd}
  {
    assert fd !in s.handles ==> s.handles - {fd} == s.handles;
  }

  lemma {:induction false} RunReads(H: Hasher, es: seq<Event>, i: nat, fd: nat, p: Path)
    requires WriteOnceRun(H, es) && CollisionFree(H, HistAfter(H, es).hashed) && i < |es|
    requires es[i] == EOpen(p, fd, false, false, true) && Stays(H, es, i, p)
    requires forall j | i < j < |es| :: !Closes(es[j], fd)
    ensures Reads(After(H, es), HistAfter(H, es), fd, p)
  {
    hide Respond, Inv, Allowed;
    var init, e := es[..|es| - 1], es[|es| - 1];
    StaysPrefix(H, es, i, p);
    RunPrefix(H, es);
    HashedGrows(H, After(H, init), HistAfter(H, init), e);
    RunKeepsInv(H, init);
    if i == |init| {
      OpenReads(H, After(H, init), HistAfter(H, init), fd, p);
    } else {
      RunReads(H, init, i, fd, p);
      StepReads(H, After(H, init), HistAfter(H, init), e, fd, p);
    }
  }

  /** p exists and is opened for reading, closed or still being written; as long as neither p is removed nor the
      descriptor closed, by a Release or by a restart,
        what the descriptor reads is what the plain filesystem has under p. */
  lemma ReadersSeeTheFile(H: Hasher, es: seq<Event>, i: nat, fd: nat, p: Path)
    requires WriteOnceRun(H, es) && CollisionFree(H, HistAfter(H, es).hashed) && i < |es|
    requires es[i] == EOpen(p, fd, false, false, true) && Stays(H, es, i, p)
    requires forall j | i < j < |es| :: !Closes(es[j], fd)
    ensures var fs := After(H, es).fs;
      fd in fs.fds && p in PlainAfter(es) && At(fs, fs.fds[fd]).bytes == PlainAfter(es)[p]
  {
    hide Respond;
    RunReads(H, es, i, fd, p);
    HistoryIsPlain(H, es);
  }
}
