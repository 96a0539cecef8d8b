/** Write-once runs in which Release's calls succeed: one inode per content, link counts equal to reference
    counts, and paths and records in one-to-one correspondence. */
module Sharing {
  import opened Basics
  import opened Fingerprints
  import opened StoreModel
  import opened StoreRuns
  import opened Underlying
  import opened Session
  import opened SequentialRuns
  import opened DedupTree
  import opened WriteOnce
  import opened WriteOnceSteps
  import opened WriteOnceRelease
  import opened Transparency

  predicate Clean(e: Event) { e.ERelease? ==> AllWell(e.o) }

  /** The content class of a released non-empty file. */
  function Class(s: Sys, k: Hist, p: Path): Option<Hash> {
    if IsClosed(k, p) && p in s.meta.nodes && s.meta.nodes[p].hash != ZERO then Some(s.meta.nodes[p].hash) else None
  }

  /** Two names lead to one inode exactly when they are released non-empty files of the same content. */
  ghost predicate Shared(s: Sys, k: Hist) {
    forall p, q | p in s.fs.dir && q in s.fs.dir ::
      s.fs.dir[p] == s.fs.dir[q] <==> p == q || (Class(s, k, p).Some? && Class(s, k, p) == Class(s, k, q))
  }

  /** p's key leads to a live record that bears p's name and has an attribute map. */
  ghost predicate HasRecord(s: Sys, p: Path) {
    && p in s.meta.nodes
    && Live(s.meta.files, s.meta.nodes[p].hash, s.meta.nodes[p].ref)
    && s.meta.files[s.meta.nodes[p].hash].list[s.meta.nodes[p].ref].path == p
    && s.meta.files[s.meta.nodes[p].hash].list[s.meta.nodes[p].ref].xattr.Some?
  }

  ghost predicate AllRecorded(s: Sys, k: Hist) {
    forall p | IsClosed(k, p) :: HasRecord(s, p)
  }

  ghost predicate AllNamed(files: Files) {
    forall h, r | Live(files, h, r) && h != ZERO :: files[h].list[r].path != []
  }

  ghost predicate Full(H: Hasher, s: Sys, k: Hist) {
    && Inv(H, s, k)
    && Shared(s, k)
    && AllRecorded(s, k)
    && AllNamed(s.meta.files)
    && s.fs.fds.Keys == s.handles.Keys
  }

  // ---------- steps that change neither names nor keys ----------

  ghost predicate SameFacts(s: Sys, k: Hist, s': Sys, k': Hist) {
    && s'.fs.dir == s.fs.dir && k'.blocks.Keys == k.blocks.Keys && k'.open.Keys == k.open.Keys && k'.left == k.left
    && (forall p | IsClosed(k, p) && p in s.meta.nodes :: p in s'.meta.nodes
          && s'.meta.nodes[p].hash == s.meta.nodes[p].hash && s'.meta.nodes[p].ref == s.meta.nodes[p].ref)
    && (forall p | IsClosed(k, p) :: p in s.meta.nodes)
    && SameRecords(s.meta.files, s'.meta.files)
    && s'.fs.fds.Keys == s'.handles.Keys
  }

  lemma SameFactsStep(H: Hasher, s: Sys, k: Hist, s': Sys, k': Hist)
    requires Full(H, s, k) && Inv(H, s', k') && SameFacts(s, k, s', k')
    ensures Full(H, s', k')
  {
    assert forall p :: Class(s', k', p) == Class(s, k, p);
    forall p | IsClosed(k', p) ensures HasRecord(s', p) {
      assert HasRecord(s, p);
    }
    assert Shared(s', k');
    assert AllNamed(s'.meta.files);
  }

  // ---------- Create ----------

  lemma CreatedShared(s: Sys, k: Hist, s': Sys, k': Hist, p: Path, ino: nat)
    requires Shared(s, k) && p !in s.fs.dir && s'.fs.dir == s.fs.dir[p := ino]
    requires forall q | q in s.fs.dir :: s.fs.dir[q] != ino
    requires Class(s', k', p) == None && forall q | q != p :: Class(s', k', q) == Class(s, k, q)
    ensures Shared(s', k')
  {
  }

  lemma CreatedRecorded(s: Sys, k: Hist, s': Sys, p: Path, fd: nat, ino: nat, info: NodeInfo)
    requires AllRecorded(s, k) && Created(s, s', p, fd, ino, info) && p !in k.blocks
    ensures AllRecorded(s', CreatedHist(k, p, fd)) && Class(s', CreatedHist(k, p, fd), p) == None
    ensures forall q | q != p :: Class(s', CreatedHist(k, p, fd), q) == Class(s, k, q)
  {
    forall q | IsClosed(CreatedHist(k, p, fd), q) ensures HasRecord(s', q) {
      assert HasRecord(s, q);
    }
  }

  lemma CreatedFull(H: Hasher, s: Sys, k: Hist, s': Sys, p: Path, fd: nat, ino: nat, info: NodeInfo)
    requires Full(H, s, k) && Created(s, s', p, fd, ino, info) && Inv(H, s', CreatedHist(k, p, fd))
    requires Unused(s.fs, p) && ino !in s.fs.inodes && p !in k.blocks
    ensures Full(H, s', CreatedHist(k, p, fd))
  {
    CreatedRecorded(s, k, s', p, fd, ino, info);
    CreatedShared(s, k, s', CreatedHist(k, p, fd), p, ino);
  }

  // ---------- Unlink and restart ----------

  /** Some paths are gone, with their records; whatever is left is as it was. */
  ghost predicate Restricted(s: Sys, k: Hist, s': Sys, k': Hist, lost: set<Path>) {
    && s'.fs.dir == s.fs.dir - lost && (forall q :: IsClosed(k', q) <==> IsClosed(k, q) && q !in lost)
    && (forall q | q !in lost :: Get(s'.meta.nodes, q) == Get(s.meta.nodes, q))
    && (forall h, r | Live(s'.meta.files, h, r) :: Lookup(s'.meta.files, h, r) == Lookup(s.meta.files, h, r))
    && (forall q | IsClosed(k', q) && q in s.meta.nodes ::
          Lookup(s'.meta.files, s.meta.nodes[q].hash, s.meta.nodes[q].ref)
            == Lookup(s.meta.files, s.meta.nodes[q].hash, s.meta.nodes[q].ref))
    && s'.fs.fds.Keys == s'.handles.Keys
  }

  lemma RestrictedFull(H: Hasher, s: Sys, k: Hist, s': Sys, k': Hist, lost: set<Path>)
    requires Full(H, s, k) && Inv(H, s', k') && Restricted(s, k, s', k', lost)
    ensures Full(H, s', k')
  {
    hide Respond;
    forall q | q !in lost ensures Class(s', k', q) == Class(s, k, q) && (IsClosed(k', q) ==> HasRecord(s', q)) {
      assert Get(s'.meta.nodes, q) == Get(s.meta.nodes, q);
      if IsClosed(k', q) {
        assert HasRecord(s, q);
      }
    }
    forall h, r | Live(s'.meta.files, h, r) && h != ZERO ensures s'.meta.files[h].list[r].path != [] {
      assert Lookup(s'.meta.files, h, r) == Lookup(s.meta.files, h, r);
    }
    assert Shared(s', k');
  }

  /** Two closed paths never have the same key. */
  lemma KeysDiffer(s: Sys, k: Hist, p: Path, q: Path)
    requires AllRecorded(s, k) && IsClosed(k, p) && IsClosed(k, q) && p != q
    ensures p in s.meta.nodes && q in s.meta.nodes
    ensures (s.meta.nodes[p].hash, s.meta.nodes[p].ref) != (s.meta.nodes[q].hash, s.meta.nodes[q].ref)
  {
    assert HasRecord(s, p) && HasRecord(s, q);
  }

  lemma UnlinkedRestricts(s: Sys, k: Hist, s': Sys, p: Path)
    requires AllRecorded(s, k) && FilesWF(s.meta.files) && s.fs.fds.Keys == s.handles.Keys
    requires Unlinked(s, s', p) && (IsClosed(k, p) || s.meta.nodes[p].hash == ZERO)
    ensures Restricted(s, k, s', UnlinkedHist(k, p), {p})
  {
    var files, info := s.meta.files, s.meta.nodes[p];
    forall h, r | Live(s'.meta.files, h, r) ensures Lookup(s'.meta.files, h, r) == Lookup(files, h, r) {
      RemoveLive(files, info.hash, info.ref, h, r);
    }
    forall q | IsClosed(k, q) && q != p && q in s.meta.nodes
      ensures Lookup(s'.meta.files, s.meta.nodes[q].hash, s.meta.nodes[q].ref)
        == Lookup(files, s.meta.nodes[q].hash, s.meta.nodes[q].ref)
    {
      if IsClosed(k, p) {
        KeysDiffer(s, k, p, q);
      }
      RemoveLive(files, info.hash, info.ref, s.meta.nodes[q].hash, s.meta.nodes[q].ref);
    }
  }

  lemma SurvivorKept(s: Sys, k: Hist, gone: set<Path>, q: Path)
    requires AllRecorded(s, k) && FilesWF(s.meta.files) && IsClosed(k, q) && q !in gone
    requires forall p | p in s.meta.nodes && !s.meta.nodes[p].isDir && s.meta.nodes[p].hash != ZERO :: IsClosed(k, p)
    ensures q in s.meta.nodes
    ensures var h, r := s.meta.nodes[q].hash, s.meta.nodes[q].ref;
      Lookup(Without(s.meta.files, KeysOf(s.meta.nodes, s.meta.nodes.Keys * gone)), h, r) == Lookup(s.meta.files, h, r)
  {
    assert HasRecord(s, q);
    var h, r := s.meta.nodes[q].hash, s.meta.nodes[q].ref;
    var ks := KeysOf(s.meta.nodes, s.meta.nodes.Keys * gone);
    forall p | p in s.meta.nodes && p in gone && !s.meta.nodes[p].isDir && h != ZERO
      ensures (s.meta.nodes[p].hash, s.meta.nodes[p].ref) != (h, r)
    {
      if s.meta.nodes[p].hash != ZERO {
        KeysDiffer(s, k, p, q);
      }
    }
    assert Kept(h, r, ks);
    WithoutLive(s.meta.files, ks, h, r);
  }

  lemma RecoveredRecordsKept(s: Sys, k: Hist, s': Sys, gone: set<Path>)
    requires AllRecorded(s, k) && FilesWF(s.meta.files) && Recovered(s, s', gone)
    requires forall p | p in s.meta.nodes && !s.meta.nodes[p].isDir && s.meta.nodes[p].hash != ZERO :: IsClosed(k, p)
    ensures forall h, r | Live(s'.meta.files, h, r) :: Lookup(s'.meta.files, h, r) == Lookup(s.meta.files, h, r)
    ensures forall q | IsClosed(k, q) && q !in gone && q in s.meta.nodes ::
      Lookup(s'.meta.files, s.meta.nodes[q].hash, s.meta.nodes[q].ref)
        == Lookup(s.meta.files, s.meta.nodes[q].hash, s.meta.nodes[q].ref)
  {
    forall h, r | Live(s'.meta.files, h, r) ensures Lookup(s'.meta.files, h, r) == Lookup(s.meta.files, h, r) {
      WithoutLive(s.meta.files, KeysOf(s.meta.nodes, s.meta.nodes.Keys * gone), h, r);
    }
    forall q | IsClosed(k, q) && q !in gone && q in s.meta.nodes
      ensures Lookup(s'.meta.files, s.meta.nodes[q].hash, s.meta.nodes[q].ref)
        == Lookup(s.meta.files, s.meta.nodes[q].hash, s.meta.nodes[q].ref)
    {
      SurvivorKept(s, k, gone, q);
    }
  }

  lemma RecoveredRestricts(H: Hasher, s: Sys, k: Hist, s': Sys, gone: set<Path>)
    requires Full(H, s, k) && Recovered(s, s', gone)
    ensures Restricted(s, k, s', RecoveredHist(k, gone), gone)
  {
    forall p | p in s.meta.nodes && !s.meta.nodes[p].isDir && s.meta.nodes[p].hash != ZERO ensures IsClosed(k, p) {
      assert PathOk(H, k.hashed, View(s, k, p), p);
    }
    RecoveredRecordsKept(s, k, s', gone);
  }

  // ---------- Release ----------

  lemma FullHasCopy(files: Files, h: Hash)
    requires FilesWF(files) && AllNamed(files) && h in files && h != ZERO
    ensures HasCopy(files, h)
  {
    var r := RecentIsLargest(files[h]);
    assert Live(files, h, r);
  }

  lemma FilledLive(files: Files, h: Hash, m: Meta, h': Hash, r': nat)
    requires FilesWF(files) && Room(files, h)
    ensures Lookup(Ended(files, h, Filled(m)), h', r') ==
            if (h', r') == (h, ClaimedRef(files, h)) then Some(m) else Lookup(files, h', r')
    ensures !Live(files, h, ClaimedRef(files, h))
  {
    ClaimWF(files, h);
    ClaimLive(files, h, h', r');
    ClaimLive(files, h, h, ClaimedRef(files, h));
    FillLive(Claim(files, h), h, ClaimedRef(files, h), m, h', r');
  }

  lemma ReleasedRecorded(s: Sys, k: Hist, s': Sys, k': Hist, p: Path, fd: nat, h: Hash, dir: map<Path, nat>, e: Ending)
    requires AllRecorded(s, k) && AllNamed(s.meta.files) && FilesWF(s.meta.files) && Room(s.meta.files, h)
    requires Released(s, s', p, fd, h, dir, e) && e.Filled? && e.m.xattr.Some? && p != []
    requires k'.blocks == k.blocks && k'.open == k.open - {p} && k'.left == k.left && p in k.open
    ensures AllRecorded(s', k') && AllNamed(s'.meta.files)
    ensures forall q | q != p :: Class(s', k', q) == Class(s, k, q)
  {
    hide AddMeta, NextRef;
    var files := s.meta.files;
    forall q | IsClosed(k', q) ensures HasRecord(s', q) {
      if q == p {
        FilledLive(files, h, e.m, h, ClaimedRef(files, h));
      } else {
        assert HasRecord(s, q);
        FilledLive(files, h, e.m, s.meta.nodes[q].hash, s.meta.nodes[q].ref);
      }
    }
    forall h', r' | Live(s'.meta.files, h', r') && h' != ZERO ensures s'.meta.files[h'].list[r'].path != [] {
      FilledLive(files, h, e.m, h', r');
    }
  }

  /** Sharing after the release of p: alone in a new class, or together with everything of its class. */
  lemma ReleasedShared(s: Sys, k: Hist, s': Sys, k': Hist, p: Path, h: Hash, q0: Option<Path>)
    requires Shared(s, k) && AllRecorded(s, k) && p in s.fs.dir && Private(s.fs.dir, p)
    requires k'.blocks == k.blocks && k'.open == k.open - {p} && k'.left == k.left && p in k.open && p in k.blocks
      && p !in k.left
    requires p in s'.meta.nodes && s'.meta.nodes[p].hash == h
    requires forall q | q != p :: Class(s', k', q) == Class(s, k, q)
    requires q0.None? ==> s'.fs.dir == s.fs.dir && IsUnique(s.meta.files, h)
    requires q0.Some? ==>
      q0.value in s.fs.dir && h != ZERO && Class(s, k, q0.value) == Some(h) &&
      s'.fs.dir == s.fs.dir[p := s.fs.dir[q0.value]]
    ensures Shared(s', k')
  {
    assert Class(s', k', p) == if h == ZERO then None else Some(h);
    forall q | q != p && q in s.fs.dir && q0.None? ensures Class(s, k, q) != Some(h) {
      assert IsClosed(k, q) ==> HasRecord(s, q);
    }
  }

  lemma ReleasedFull(H: Hasher, s: Sys, k: Hist, fd: nat, p: Path, o: Env)
    requires Full(H, s, k) && Allowed(H, s, k, ERelease(fd, p, o)) && s.handles[fd].writing && AllWell(o)
    requires p in k.blocks ==> CollisionFree(H, k.hashed + Inputs(H, k.blocks[p]))
    requires p in k.blocks ==> Inv(H, Release(H, s, fd, p, o).sys, ReleasedHist(H, k, p))
    ensures p in k.blocks && Full(H, Release(H, s, fd, p, o).sys, ReleasedHist(H, k, p))
  {
    var dir, e, q := ReleaseBranch(H, s, k, fd, p, o);
    var s', h, k' := Release(H, s, fd, p, o).sys, FinalHash(H, s, p), ReleasedHist(H, k, p);
    WritingFacts(H, s, k, p);
    if !IsUnique(s.meta.files, h) {
      FullHasCopy(s.meta.files, h);
    }
    ReleasedRecorded(s, k, s', k', p, fd, h, dir, e);
    ReleasedShared(s, k, s', k', p, h, q);
  }

  // ---------- runs ----------

  lemma ClosedHaveNodes(s: Sys, k: Hist)
    requires AllRecorded(s, k)
    ensures forall p | IsClosed(k, p) :: p in s.meta.nodes
  {
    forall p | IsClosed(k, p) ensures p in s.meta.nodes {
      assert HasRecord(s, p);
    }
  }

  lemma OpenShape(H: Hasher, s: Sys, e: Event)
    requires e.EOpen? && !e.trunc
    ensures var s' := Step(H, s, e);
      s'.meta == s.meta && s'.fs.dir == s.fs.dir
      && (s.fs.fds.Keys == s.handles.Keys ==> s'.fs.fds.Keys == s'.handles.Keys)
  {
  }

  lemma OpenKeepsFull(H: Hasher, s: Sys, k: Hist, e: Event)
    requires Full(H, s, k) && Allowed(H, s, k, e) && e.EOpen? && Inv(H, Step(H, s, e), k)
    ensures Full(H, Step(H, s, e), k)
  {
    hide Respond;
    ClosedHaveNodes(s, k);
    OpenShape(H, s, e);
    SameFactsStep(H, s, k, Step(H, s, e), k);
  }

  lemma LookupKeepsFull(H: Hasher, s: Sys, k: Hist, e: Event)
    requires Full(H, s, k) && e.ELookup? && Inv(H, Step(H, s, e), k)
    ensures Full(H, Step(H, s, e), k)
  {
    hide Respond, WF, FilesWF;
    ClosedHaveNodes(s, k);
    var info := LookupEvent(H, s, k, e);
    SameFactsStep(H, s, k, Step(H, s, e), k);
  }

  lemma AttributesKeepFull(H: Hasher, s: Sys, k: Hist, s': Sys)
    requires Full(H, s, k) && SameButAttributes(s, s') && Inv(H, s', k)
    ensures Full(H, s', k)
  {
    ClosedHaveNodes(s, k);
    SameFactsStep(H, s, k, s', k);
  }

  lemma QuietKeepsFull(H: Hasher, s: Sys, k: Hist, e: Event)
    requires Full(H, s, k) && Allowed(H, s, k, e) && Inv(H, Step(H, s, e), k)
    requires e.EOpen? || e.ELookup? || AssignsOnly(e)
    ensures Full(H, Step(H, s, e), k)
  {
    hide Respond;
    if e.EOpen? {
      OpenKeepsFull(H, s, k, e);
    } else if e.ELookup? {
      LookupKeepsFull(H, s, k, e);
    } else {
      AttributeEvent(H, s, e);
      AttributesKeepFull(H, s, k, Step(H, s, e));
    }
  }

  lemma MkdirKeepsFull(H: Hasher, s: Sys, k: Hist, e: Event)
    requires Full(H, s, k) && Allowed(H, s, k, e) && e.EMkdir? && Inv(H, Step(H, s, e), k)
    ensures Full(H, Step(H, s, e), k)
  {
    hide Respond;
    var info := MkdirEvent(H, s, k, e);
    if e.ok && Unused(s.fs, e.p) {
      ClosedHaveNodes(s, k);
      FolderMadeFacts(s, k, Step(H, s, e), e.p, info);
      SameFactsStep(H, s, k, Step(H, s, e), k);
    }
  }

  lemma FolderGoneFull(H: Hasher, s: Sys, k: Hist, s': Sys, p: Path)
    requires Full(H, s, k) && FolderGone(s, s', p) && p in s.fs.folders && Inv(H, s', k)
    ensures Full(H, s', k)
  {
    assert PathOk(H, k.hashed, View(s, k, p), p);
    ClosedHaveNodes(s, k);
    FolderGoneFacts(s, k, s', p);
    SameFactsStep(H, s, k, s', k);
  }

  lemma FolderGoneFacts(s: Sys, k: Hist, s': Sys, p: Path)
    requires FolderGone(s, s', p) && p !in k.blocks && (forall q | IsClosed(k, q) :: q in s.meta.nodes)
    requires s.fs.fds.Keys == s.handles.Keys
    ensures SameFacts(s, k, s', k)
  {
  }

  lemma FolderMadeFacts(s: Sys, k: Hist, s': Sys, p: Path, info: NodeInfo)
    requires FolderMade(s, s', p, info) && p !in k.blocks && (forall q | IsClosed(k, q) :: q in s.meta.nodes)
    requires s.fs.fds.Keys == s.handles.Keys
    ensures SameFacts(s, k, s', k)
  {
  }

  lemma RmdirKeepsFull(H: Hasher, s: Sys, k: Hist, e: Event)
    requires Full(H, s, k) && e.ERmdir? && Inv(H, Step(H, s, e), k)
    ensures Full(H, Step(H, s, e), k)
  {
    hide Respond;
    RmdirEvent(H, s, e);
    if e.ok && e.p in s.fs.folders {
      FolderGoneFull(H, s, k, Step(H, s, e), e.p);
    }
  }

  lemma WriteKeepsHandles(H: Hasher, s: Sys, e: Event)
    requires e.EWrite?
    ensures Step(H, s, e).handles == s.handles && Step(H, s, e).fs.fds == s.fs.fds
  {
  }

  lemma WriteKeepsFull(H: Hasher, s: Sys, k: Hist, e: Event)
    requires Full(H, s, k) && Allowed(H, s, k, e) && e.EWrite? && Inv(H, Step(H, s, e), WriteOnce.Recorded(H, s, k, e))
    ensures Full(H, Step(H, s, e), WriteOnce.Recorded(H, s, k, e))
  {
    hide Respond, WF;
    WriteEvent(H, s, k, e);
    WriteKeepsHandles(H, s, e);
    ClosedHaveNodes(s, k);
    SameFactsStep(H, s, k, Step(H, s, e), WriteOnce.Recorded(H, s, k, e));
  }

  lemma ReadCloseKeepsFull(H: Hasher, s: Sys, k: Hist, fd: nat, p: Path, o: Env)
    requires Full(H, s, k) && fd in s.handles && !s.handles[fd].writing && Inv(H, Release(H, s, fd, p, o).sys, k)
    ensures Full(H, Release(H, s, fd, p, o).sys, k)
  {
    hide Respond, WF, FilesWF;
    ReadCloseShape(H, s, k, fd, p, o);
    var fs' := CloseEffect(s.fs, fd);
    ClosedHaveNodes(s, k);
    SameFactsStep(H, s, k, Release(H, s, fd, p, o).sys, k);
  }

  lemma ReleaseKeepsFull(H: Hasher, s: Sys, k: Hist, e: Event)
    requires Full(H, s, k) && Allowed(H, s, k, e) && e.ERelease? && Clean(e)
    requires CollisionFree(H, WriteOnce.Recorded(H, s, k, e).hashed)
      && Inv(H, Step(H, s, e), WriteOnce.Recorded(H, s, k, e))
    ensures Full(H, Step(H, s, e), WriteOnce.Recorded(H, s, k, e))
  {
    hide WF, FilesWF;
    if s.handles[e.fd].writing {
      assert Get(k.open, e.p) == Some(e.fd);
      ReleasedFull(H, s, k, e.fd, e.p, e.o);
    } else {
      if e.p in k.open {
        WritingFacts(H, s, k, e.p);
      }
      ReadCloseKeepsFull(H, s, k, e.fd, e.p, e.o);
    }
  }

  lemma UnlinkKeepsFull(H: Hasher, s: Sys, k: Hist, e: Event)
    requires Full(H, s, k) && Allowed(H, s, k, e) && e.EUnlink? && Inv(H, Step(H, s, e), WriteOnce.Recorded(H, s, k, e))
    ensures Full(H, Step(H, s, e), WriteOnce.Recorded(H, s, k, e))
  {
    hide Respond, WF;
    UnlinkEvent(H, s, k, e);
    assert PathOk(H, k.hashed, View(s, k, e.p), e.p);
    if e.ok && e.p in s.fs.dir {
      UnlinkedRestricts(s, k, Step(H, s, e), e.p);
      RestrictedFull(H, s, k, Step(H, s, e), WriteOnce.Recorded(H, s, k, e), {e.p});
    }
  }

  lemma RecoverKeepsFull(H: Hasher, s: Sys, k: Hist, gone: set<Path>)
    requires Full(H, s, k)
    ensures Full(H, Recover(s, gone), RecoveredHist(k, gone))
  {
    var s' := Recover(s, gone);
    RecoverShape(H, s, k, gone);
    RecoveredKeepsInv(H, s, k, s', gone);
    RecoveredRestricts(H, s, k, s', gone);
    RestrictedFull(H, s, k, s', RecoveredHist(k, gone), gone);
  }

  lemma StepKeepsFull(H: Hasher, s: Sys, k: Hist, e: Event)
    requires Full(H, s, k) && Allowed(H, s, k, e) && Clean(e) && CollisionFree(H, WriteOnce.Recorded(H, s, k, e).hashed)
    ensures Full(H, Step(H, s, e), WriteOnce.Recorded(H, s, k, e))
  {
    hide WF;
    StepKeepsInv(H, s, k, e);
    if e.ECreate? {
      var info := CreateEvent(H, s, k, e);
      CreatedFull(H, s, k, Step(H, s, e), e.p, e.fd, e.ino, info);
    } else if e.EWrite? {
      WriteKeepsFull(H, s, k, e);
    } else if e.ERelease? {
      ReleaseKeepsFull(H, s, k, e);
    } else if e.EUnlink? {
      UnlinkKeepsFull(H, s, k, e);
    } else if e.ERecover? {
      RecoverKeepsFull(H, s, k, e.gone);
    } else if e.EMkdir? {
      MkdirKeepsFull(H, s, k, e);
    } else if e.ERmdir? {
      RmdirKeepsFull(H, s, k, e);
    } else {
      QuietKeepsFull(H, s, k, e);
    }
  }

  ghost predicate CleanRun(H: Hasher, es: seq<Event>) {
    WriteOnceRun(H, es) && CollisionFree(H, HistAfter(H, es).hashed) && forall e | e in es :: Clean(e)
  }

  lemma CleanPrefix(H: Hasher, es: seq<Event>)
    requires CleanRun(H, es) && es != []
    ensures var init, e := es[..|es| - 1], es[|es| - 1];
      CleanRun(H, init) && Clean(e) && Allowed(H, After(H, init), HistAfter(H, init), e)
  {
    RunPrefix(H, es);
    HashedGrows(H, After(H, es[..|es| - 1]), HistAfter(H, es[..|es| - 1]), es[|es| - 1]);
  }

  lemma {:induction false} CleanRunsAreFull(H: Hasher, es: seq<Event>)
    requires CleanRun(H, es)
    ensures Full(H, After(H, es), HistAfter(H, es))
  {
    if es == [] {
      InvInit(H);
    } else {
      var init := es[..|es| - 1];
      CleanPrefix(H, es);
      CleanRunsAreFull(H, init);
      StepKeepsFull(H, After(H, init), HistAfter(H, init), es[|es| - 1]);
    }
  }
}
