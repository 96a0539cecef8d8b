/** Release, branch by branch, keeps the write-once invariant. */
module WriteOnceRelease {
  import opened Basics
  import opened Fingerprints
  import opened StoreModel
  import opened Underlying
  import opened Session
  import opened SequentialRuns
  import opened DedupTree
  import opened WriteOnce

  /** What releasing the open handle of p comes to, whichever branch it takes. */
  ghost predicate Released(s: Sys, s': Sys, p: Path, fd: nat, h: Hash, dir: map<Path, nat>, e: Ending) {
    && WF(s'.fs) && s'.fs.dir == dir && Contents(s'.fs) == Contents(s.fs) && s'.fs.folders == s.fs.folders
    && s'.fs.dev == s.fs.dev
    && (forall g | g in s.fs.fds && g != fd :: Get(s'.fs.fds, g) == Some(s.fs.fds[g]))
    && s'.handles == s.handles - {fd} && s'.buffers == s.buffers - {p}
    && p in s.meta.nodes && s'.meta.dirs == s.meta.dirs
    && s'.meta.nodes == s.meta.nodes[p := s.meta.nodes[p].(hash := h, ref := ClaimedRef(s.meta.files, h))]
    && s'.meta.files == Ended(s.meta.files, h, e)
    && (e.Filled? ==> e.m.path == p)
    && e != Untouched
  }

  ghost function ReleasedHist(H: Hasher, k: Hist, p: Path): Hist
    requires p in k.blocks
  {
    k.(open := k.open - {p}, hashed := k.hashed + Inputs(H, k.blocks[p]))
  }

  lemma FinalHashIsFingerprint(H: Hasher, s: Sys, k: Hist, p: Path)
    requires PathsOk(H, s, k) && p in k.open
    ensures p in k.blocks && FinalHash(H, s, p) == Fingerprint(H, k.blocks[p])
  {
    WritingFacts(H, s, k, p);
  }

  // ---------- the invariant after it ----------

  lemma ReleasedOthers(s: Sys, k: Hist, s': Sys, k': Hist, p: Path, fd: nat, h: Hash, dir: map<Path, nat>, e: Ending,
                       q: Path)
    requires Released(s, s', p, fd, h, dir, e) && q != p && Get(dir, q) == Get(s.fs.dir, q)
    requires k'.blocks == k.blocks && k'.open == k.open - {p} && k'.left == k.left
    requires q in k.open ==> k.open[q] != fd && k.open[q] in s.fs.fds
    ensures View(s', k', q) == View(s, k, q)
  {
    hide WF;
  }

  lemma ReleasedPaths(H: Hasher, s: Sys, k: Hist, s': Sys, p: Path, fd: nat, h: Hash, dir: map<Path, nat>, e: Ending)
    requires PathsOk(H, s, k) && HandlesInv(s.handles, k.open) && p in k.open && fd == k.open[p] && p in k.blocks
    requires h == Fingerprint(H, k.blocks[p]) && Released(s, s', p, fd, h, dir, e)
    requires p in dir && forall q | q != p :: Get(dir, q) == Get(s.fs.dir, q)
    requires ClaimedRef(s.meta.files, h) >= 1
    ensures forall q | q != p :: View(s', ReleasedHist(H, k, p), q) == View(s, k, q)
    ensures PathsOk(H, s', ReleasedHist(H, k, p))
    ensures Owns(View(s', ReleasedHist(H, k, p), p), h, ClaimedRef(s.meta.files, h))
  {
    var k' := ReleasedHist(H, k, p);
    forall q | q != p ensures View(s', k', q) == View(s, k, q) {
      if q in k.open {
        WritingFacts(H, s, k, q);
        WritingFacts(H, s, k, p);
      }
      ReleasedOthers(s, k, s', k', p, fd, h, dir, e, q);
    }
    assert PathOk(H, k.hashed, View(s, k, p), p);
    OnePathStep(H, s, k, s', k', p);
  }

  lemma EndedRecords(files: Files, h: Hash, e: Ending, h': Hash, r': nat)
    requires FilesWF(files) && Room(files, h) && Live(Ended(files, h, e), h', r')
    ensures var m := Ended(files, h, e)[h'].list[r'];
      || (Live(files, h', r') && files[h'].list[r'] == m)
      || ((h', r') == (h, ClaimedRef(files, h)) && (m.path == [] || e == Filled(m)))
  {
    var r := ClaimedRef(files, h);
    ClaimWF(files, h);
    ClaimLive(files, h, h', r');
    match e
    case Untouched =>
    case Claimed =>
    case Filled(m) => FillLive(Claim(files, h), h, r, m, h', r');
    case Withdrawn => RemoveLive(Claim(files, h), h, r, h', r');
  }

  lemma ReleasedRecords(s: Sys, k: Hist, s': Sys, k': Hist, p: Path, fd: nat, h: Hash, dir: map<Path, nat>, e: Ending)
    requires FilesWF(s.meta.files) && Room(s.meta.files, h) && RecordsOk(s, k)
    requires Released(s, s', p, fd, h, dir, e) && p in k.open
    requires forall q | q != p :: View(s', k', q) == View(s, k, q)
    requires Owns(View(s', k', p), h, ClaimedRef(s.meta.files, h))
    ensures RecordsOk(s', k')
  {
    forall h', r' | Live(s'.meta.files, h', r') && h' != ZERO && s'.meta.files[h'].list[r'].path != []
      ensures (Live(s.meta.files, h', r') && s.meta.files[h'].list[r'].path == s'.meta.files[h'].list[r'].path)
              || Owns(View(s', k', s'.meta.files[h'].list[r'].path), h', r')
    {
      EndedRecords(s.meta.files, h, e, h', r');
    }
    assert forall h', r' :: !Owns(View(s, k, p), h', r');
    RecordsStep(s, k, s', k', p);
  }

  lemma ReleasedKeepsInv(H: Hasher, s: Sys, k: Hist, s': Sys, p: Path, fd: nat, h: Hash, dir: map<Path, nat>, e: Ending)
    requires Inv(H, s, k) && p in k.open && fd == k.open[p] && p in k.blocks
    requires h == Fingerprint(H, k.blocks[p]) && Room(s.meta.files, h) && Released(s, s', p, fd, h, dir, e)
    requires p in dir && forall q | q != p :: Get(dir, q) == Get(s.fs.dir, q)
    requires PrivateInv(dir, k.open - {p})
    ensures Inv(H, s', ReleasedHist(H, k, p))
  {
    ReleasedPaths(H, s, k, s', p, fd, h, dir, e);
    ReleasedRecords(s, k, s', ReleasedHist(H, k, p), p, fd, h, dir, e);
    ReleasedRest(s, k, s', p, fd, h, dir, e);
  }

  lemma ReleasedRest(s: Sys, k: Hist, s': Sys, p: Path, fd: nat, h: Hash, dir: map<Path, nat>, e: Ending)
    requires FilesWF(s.meta.files) && Room(s.meta.files, h) && Released(s, s', p, fd, h, dir, e)
    requires HandlesInv(s.handles, k.open) && p in k.open && fd == k.open[p]
    ensures FilesWF(s'.meta.files) && HandlesInv(s'.handles, k.open - {p})
  {
    EndedAdvances(s.meta.files, h, e);
  }

  // ---------- the records it fills in ----------

  /** A record filled in for p: named after it, with an attribute map of its own. */
  ghost predicate FreshRecord(s: Store, s': Store, h: Hash, r: nat, p: Path) {
    && OnlyRecord(s, s', h, r)
    && s'.files[h].list[r].path == p && s'.files[h].list[r].xattr == Some(s.next)
    && s'.xattrs == s.xattrs[s.next := map[]] && s'.next == s.next + 1
  }

  lemma MetaAfterPut(s: Store, l: Loc, m: Meta)
    requires MetaAt(s, l).Some?
    ensures MetaAt(Put(s, l, m), l) == Some(m) && Put(s, l, m).xattrs == s.xattrs && Put(s, l, m).next == s.next
  {
  }

  lemma FillUniqueFresh(s: Store, h: Hash, r: nat, st: Stat, stable: StableAttr, p: Path, owner: Owner, now: Timespec)
    requires Live(s.files, h, r) && s.files[h].list[r].xattr.None?
    ensures FreshRecord(s, FillUnique(s, FileLoc(h, r), st, stable, p, None, owner, now), h, r, p)
  {
    var l := FileLoc(h, r);
    FillUniqueShape(s, h, r, st, stable, p, None, owner, now);
    var m1 := FromStat(s.files[h].list[r], st, stable, p, s.next);
    MetaAfterPut(NewXAttrs(s), l, m1);
    var t1 := Put(NewXAttrs(s), l, m1);
    var m2 := WithOwner(m1, Some(owner.uid), Some(owner.gid));
    MetaAfterPut(t1, l, m2);
    MetaAfterPut(Put(t1, l, m2), l, WithTime(m2, None, Some(now), Some(now)));
  }

  lemma FillDuplicateFresh(s: Store, h: Hash, r: nat, spare: Stat, link: Stat, p: Path, owner: Owner, now: Timespec)
    requires Live(s.files, h, r)
    ensures FreshRecord(s, FillDuplicate(s, FileLoc(h, r), spare, link, p, owner, now), h, r, p)
  {
    var l := FileLoc(h, r);
    FillDuplicateShape(s, h, r, spare, link, p, owner, now);
    var m1 := FromSpare(s.files[h].list[r], spare, link, p, owner.uid, owner.gid, s.next);
    MetaAfterPut(NewXAttrs(s), l, m1);
    MetaAfterPut(Put(NewXAttrs(s), l, m1), l, WithTime(m1, None, Some(now), Some(now)));
  }

  // ---------- the branches ----------

  /** A live record of the same non-empty content that names a path is a closed file with the same bytes. */
  lemma RecordedCopy(H: Hasher, s: Sys, k: Hist, p: Path, h: Hash, r: nat)
    requires Inv(H, s, k) && p in k.open && p in k.blocks && h == Fingerprint(H, k.blocks[p]) && h != ZERO
    requires CollisionFree(H, k.hashed + Inputs(H, k.blocks[p]))
    requires Live(s.meta.files, h, r) && s.meta.files[h].list[r].path in s.fs.dir
    ensures var q := s.meta.files[h].list[r].path;
      && q != p && IsClosed(k, q) && s.fs.dir[q] != s.fs.dir[p]
      && k.blocks[q] == k.blocks[p] && Contents(s.fs)[q] == Contents(s.fs)[p]
  {
    hide WF;
    var q := s.meta.files[h].list[r].path;
    assert PathOk(H, k.hashed, View(s, k, q), q);
    assert RecordOk(s, k, h, r);
    WritingFacts(H, s, k, p);
    FingerprintIdentifiesBlocks(H, k.blocks[q], k.blocks[p], k.hashed + Inputs(H, k.blocks[p]));
  }

  /** What a Release needs to know of the state, without the rest of the invariant. */
  ghost predicate Ready(s: Sys, fd: nat, p: Path) {
    && WF(s.fs) && FilesWF(s.meta.files)
    && fd in s.handles && s.handles[fd] == Handle(p, true, ZERO, 0)
    && fd in s.fs.fds && p in s.fs.dir && p in s.meta.nodes
    && Unused(s.fs, TmpPath(p)) && Unused(s.fs, SparePath(p))
  }

  lemma OpenIsReady(H: Hasher, s: Sys, k: Hist, p: Path)
    requires Inv(H, s, k) && p in k.open
    ensures Ready(s, k.open[p], p)
  {
    WritingFacts(H, s, k, p);
    ScratchNamesAreNotUserPaths(p);
    UnusedScratch(H, s, k, TmpPath(p));
    UnusedScratch(H, s, k, SparePath(p));
  }

  /** Nothing but the key, the buffer, the handle and the map has changed when the branches begin. */
  lemma TakenShape(s: Sys, fd: nat, p: Path, h: Hash)
    requires Ready(s, fd, p) && Room(s.meta.files, h)
    ensures var s1, r := Taken(s, fd, p, h), ClaimedRef(s.meta.files, h);
      && s1.fs == s.fs && s1.meta.files == Claim(s.meta.files, h) && s1.meta.dirs == s.meta.dirs
      && s1.meta.nodes == s.meta.nodes[p := s.meta.nodes[p].(hash := h, ref := r)]
      && s1.meta.xattrs == s.meta.xattrs && s1.meta.next == s.meta.next
      && s1.buffers == s.buffers - {p} && s1.handles == s.handles - {fd}
      && Lookup(s1.meta.files, h, r) == Some(DEFAULT_META)
    ensures Lookup(s.meta.files, ZERO, 0) == None
  {
    ClaimLive(s.meta.files, h, h, ClaimedRef(s.meta.files, h));
  }

  lemma Assemble(s: Sys, fd: nat, p: Path, h: Hash, s1: Sys, s': Sys, dir: map<Path, nat>, e: Ending)
    requires Ready(s, fd, p) && Room(s.meta.files, h) && s1 == Taken(s, fd, p, h)
    requires WF(s'.fs) && s'.fs.dir == dir && Contents(s'.fs) == Contents(s.fs) && s'.fs.folders == s.fs.folders
    requires s'.fs.dev == s.fs.dev && (s'.fs.fds == s.fs.fds || s'.fs.fds == s.fs.fds - {fd})
    requires s'.handles == s1.handles && s'.buffers == s1.buffers
    requires s'.meta.dirs == s1.meta.dirs && s'.meta.nodes == s1.meta.nodes
    requires s'.meta.files == Ended(s.meta.files, h, e) && e != Untouched && (e.Filled? ==> e.m.path == p)
    ensures Released(s, s', p, fd, h, dir, e)
  {
    hide Respond, WF;
    TakenShape(s, fd, p, h);
  }

  lemma FreshIsFilled(s: Store, s': Store, files: Files, h: Hash, p: Path) returns (e: Ending)
    requires s.files == Claim(files, h) && FreshRecord(s, s', h, ClaimedRef(files, h), p)
    ensures e.Filled? && e.m.path == p && s'.files == Ended(files, h, e) && s'.dirs == s.dirs && s'.nodes == s.nodes
  {
    e := Filled(s'.files[h].list[ClaimedRef(files, h)]);
  }

  lemma UniqueReleased(H: Hasher, s: Sys, fd: nat, p: Path, o: Env, h: Hash, s1: Sys) returns (e: Ending)
    requires Ready(s, fd, p) && h == FinalHash(H, s, p) && IsUnique(s.meta.files, h) && Room(s.meta.files, h)
    requires s1 == Taken(s, fd, p, h)
    ensures var s' := Release(H, s, fd, p, o).sys;
      && Released(s, s', p, fd, h, s.fs.dir, e)
      && (if o.fstatOk then e.Filled? && s'.fs.fds == s.fs.fds - {fd}
          && FreshRecord(s1.meta, s'.meta, h, ClaimedRef(s.meta.files, h), p)
          else e == Claimed && s'.meta == s1.meta)
  {
    var r, owner := ClaimedRef(s.meta.files, h), BufferOwner(s, p);
    TakenShape(s, fd, p, h);
    assert Release(H, s, fd, p, o) == ReleaseUnique(s1, fd, p, FileLoc(h, r), None, owner, o);
    if o.fstatOk {
      var fs' := CloseEffect(s.fs, fd);
      var st := StatOf(s.fs, s.fs.fds[fd], o.st);
      var meta' := FillUnique(s1.meta, FileLoc(h, r), st, o.stable, p, None, owner, o.now);
      FillUniqueFresh(s1.meta, h, r, st, o.stable, p, owner, o.now);
      e := FreshIsFilled(s1.meta, meta', s.meta.files, h, p);
      Assemble(s, fd, p, h, s1, s1.(fs := fs', meta := meta'), s.fs.dir, e);
    } else {
      e := Claimed;
      Assemble(s, fd, p, h, s1, s1, s.fs.dir, e);
    }
  }

  /** The state in which the duplicate branch starts: taken, and the descriptor closed. */
  function TakenClosed(s: Sys, fd: nat, p: Path, h: Hash): Sys { Taken(s, fd, p, h).(fs := Close(s.fs, fd)) }

  lemma DuplicateStarts(H: Hasher, s: Sys, fd: nat, p: Path, o: Env, h: Hash, s2: Sys)
    requires Ready(s, fd, p) && h == FinalHash(H, s, p) && !IsUnique(s.meta.files, h) && Room(s.meta.files, h)
    requires s2 == TakenClosed(s, fd, p, h)
    ensures Release(H, s, fd, p, o) ==
            ReleaseDuplicate(s2, p, h, ClaimedRef(s.meta.files, h), Recent(s.meta.files[h]), None, BufferOwner(s, p), o)
    ensures Shows(s2.fs, s.fs.dir, Contents(s.fs), s.fs.fds - {fd}, s.fs)
  {
    TakenShape(s, fd, p, h);
    var fs2 := CloseEffect(s.fs, fd);
  }

  lemma GivingUpKeepsRest(s: Sys, p: Path, h: Hash, ref: nat, rec: Option<Meta>, was: Option<Meta>, owner: Owner,
                          o: Env)
    ensures var s' := ReleaseDuplicate(s, p, h, ref, rec, was, owner, o).sys;
      s'.buffers == s.buffers && s'.handles == s.handles
  {
  }

  lemma DuplicateGivenUp(H: Hasher, s: Sys, fd: nat, p: Path, o: Env, h: Hash, s2: Sys)
    requires Ready(s, fd, p) && h == FinalHash(H, s, p) && !IsUnique(s.meta.files, h) && Room(s.meta.files, h)
    requires s2 == TakenClosed(s, fd, p, h) && o.tmpUnlinkOk && GivesUp(s2, p, Recent(s.meta.files[h]), o)
    ensures var s' := Release(H, s, fd, p, o).sys;
      && Released(s, s', p, fd, h, s.fs.dir, Withdrawn) && s'.fs.fds == s.fs.fds - {fd}
      && s'.meta.xattrs == s.meta.xattrs && s'.meta.next == s.meta.next
  {
    var r, rec, owner := ClaimedRef(s.meta.files, h), Recent(s.meta.files[h]), BufferOwner(s, p);
    var s' := ReleaseDuplicate(s2, p, h, r, rec, None, owner, o).sys;
    DuplicateStarts(H, s, fd, p, o, h, s2);
    var fs' := CloseEffect(s.fs, fd);
    GivenUp(s2, p, h, r, rec, owner, o);
    AssembleGivenUp(s, fd, p, h, Taken(s, fd, p, h), s2, s');
  }

  lemma AssembleGivenUp(s: Sys, fd: nat, p: Path, h: Hash, s1: Sys, s2: Sys, s': Sys)
    requires Ready(s, fd, p) && Room(s.meta.files, h) && s1 == Taken(s, fd, p, h) && s2 == s1.(fs := s2.fs)
    requires Shows(s2.fs, s.fs.dir, Contents(s.fs), s.fs.fds - {fd}, s.fs)
    requires SameTree(s2.fs, s'.fs) && s'.meta == Forget(s2, h, ClaimedRef(s.meta.files, h)).meta
    requires s'.buffers == s2.buffers && s'.handles == s2.handles
    ensures Released(s, s', p, fd, h, s.fs.dir, Withdrawn) && s'.fs.fds == s.fs.fds - {fd}
    ensures s'.meta.xattrs == s.meta.xattrs && s'.meta.next == s.meta.next
  {
    hide WF;
    TakenShape(s, fd, p, h);
    Assemble(s, fd, p, h, s1, s', s.fs.dir, Withdrawn);
  }

  lemma GivenUp(s: Sys, p: Path, h: Hash, r: nat, rec: Option<Meta>, owner: Owner, o: Env)
    requires WF(s.fs) && Unused(s.fs, TmpPath(p)) && o.tmpUnlinkOk && GivesUp(s, p, rec, o)
    ensures var s' := ReleaseDuplicate(s, p, h, r, rec, None, owner, o).sys;
      SameTree(s.fs, s'.fs) && s'.meta == Forget(s, h, r).meta && s'.buffers == s.buffers && s'.handles == s.handles
  {
    GivingUpKeepsTree(s, p, h, r, rec, None, owner, o);
    GivingUpWithdraws(s, p, h, r, rec, None, owner, o);
    GivingUpKeepsRest(s, p, h, r, rec, None, owner, o);
  }

  /** The rename has happened: s3 is the state with the tree in which p is a link to the recorded copy. */
  lemma DuplicateGoesOn(s2: Sys, p: Path, q: Path, h: Hash, r: nat, rec: Option<Meta>, owner: Owner,
                        o: Env)
    returns (s3: Sys)
    requires WF(s2.fs) && Unused(s2.fs, TmpPath(p)) && p in s2.fs.dir && q in s2.fs.dir && s2.fs.dir[q] != s2.fs.dir[p]
    requires rec.Some? && rec.value.path == q && !GivesUp(s2, p, rec, o)
    requires Contents(s2.fs)[q] == Contents(s2.fs)[p]
    ensures s3 == s2.(fs := Rename(Link(s2.fs, q, TmpPath(p)).value, TmpPath(p), p).value)
    ensures exists st ::
      ReleaseDuplicate(s2, p, h, r, rec, None, owner, o) == FinishDuplicate(s3, p, h, r, st, None, owner, o)
    ensures Shows(s3.fs, s2.fs.dir[p := s2.fs.dir[q]], Contents(s2.fs), s2.fs.fds, s2.fs)
  {
    hide WF;
    GoingOnFinishes(s2, p, h, r, rec, None, owner, o);
    var fs3 := ReplaceByLink(s2.fs, q, p, TmpPath(p));
    s3 := s2.(fs := fs3);
    assert Contents(s2.fs)[p := Contents(s2.fs)[q]] == Contents(s2.fs);
  }

  lemma FinishMeta(s: Sys, p: Path, files: Files, h: Hash, st: Stat, owner: Owner, o: Env) returns (e: Ending)
    requires s.meta.files == Claim(files, h) && Live(s.meta.files, h, ClaimedRef(files, h))
    requires WF(s.fs) && Unused(s.fs, SparePath(p)) && o.spareFd !in s.fs.fds && o.spareIno !in s.fs.inodes
    ensures var s' := FinishDuplicate(s, p, h, ClaimedRef(files, h), st, None, owner, o).sys;
      && s'.meta.files == Ended(files, h, e) && s'.meta.dirs == s.meta.dirs && s'.meta.nodes == s.meta.nodes
      && s'.buffers == s.buffers && s'.handles == s.handles
      && (if o.spareOk && o.spareStatOk then
            e.Filled? && e.m.path == p && FreshRecord(s.meta, s'.meta, h, ClaimedRef(files, h), p)
          else e == Claimed && s'.meta == s.meta)
  {
    hide WF;
    SpareKeepsTree(s.fs, SparePath(p), o.spareFd, o.spareIno);
    if o.spareOk && o.spareStatOk {
      var fs1 := Close(OpenCreate(s.fs, SparePath(p), o.spareFd, o.spareIno).value, o.spareFd);
      var spare := StatOf(fs1, fs1.dir[SparePath(p)], o.spareSt);
      FillDuplicateFresh(s.meta, h, ClaimedRef(files, h), spare, st, p, owner, o.now);
      e := FreshIsFilled(s.meta, FillDuplicate(s.meta, FileLoc(h, ClaimedRef(files, h)), spare, st, p, owner, o.now),
                         files, h, p);
    } else {
      e := Claimed;
    }
  }

  lemma DuplicateReplaced(H: Hasher, s: Sys, fd: nat, p: Path, q: Path, o: Env, h: Hash, s2: Sys) returns (e: Ending)
    requires Ready(s, fd, p) && h == FinalHash(H, s, p) && !IsUnique(s.meta.files, h) && Room(s.meta.files, h)
    requires s2 == TakenClosed(s, fd, p, h) && o.spareUnlinkOk && !GivesUp(s2, p, Recent(s.meta.files[h]), o)
    requires Recent(s.meta.files[h]).value.path == q && q in s.fs.dir && s.fs.dir[q] != s.fs.dir[p]
    requires Contents(s.fs)[q] == Contents(s.fs)[p]
    requires o.spareFd !in SpareTree(H, s, fd, p).fds && o.spareIno !in SpareTree(H, s, fd, p).inodes
    ensures var s' := Release(H, s, fd, p, o).sys;
      && Released(s, s', p, fd, h, s.fs.dir[p := s.fs.dir[q]], e) && s'.fs.fds == s.fs.fds - {fd}
      && (if o.spareOk && o.spareStatOk then
            e.Filled? && FreshRecord(Taken(s, fd, p, h).meta, s'.meta, h, ClaimedRef(s.meta.files, h), p)
          else e == Claimed && s'.meta == Taken(s, fd, p, h).meta)
  {
    hide FilesWF;
    var r, rec, owner := ClaimedRef(s.meta.files, h), Recent(s.meta.files[h]), BufferOwner(s, p);
    DuplicateStarts(H, s, fd, p, o, h, s2);
    var s3 := DuplicateGoesOn(s2, p, q, h, r, rec, owner, o);
    var st :| Release(H, s, fd, p, o) == FinishDuplicate(s3, p, h, r, st, None, owner, o);
    TakenShape(s, fd, p, h);
    SpareTreeIs(H, s, fd, p, h, s2, s3);
    e := FinishMeta(s3, p, s.meta.files, h, st, owner, o);
    FinishKeepsTree(s3, p, h, r, st, owner, o);
    Assemble(s, fd, p, h, Taken(s, fd, p, h), FinishDuplicate(s3, p, h, r, st, None, owner, o).sys,
             s.fs.dir[p := s.fs.dir[q]], e);
  }

  lemma SpareTreeIs(H: Hasher, s: Sys, fd: nat, p: Path, h: Hash, s2: Sys, s3: Sys)
    requires h == FinalHash(H, s, p) && h in s.meta.files && s2 == TakenClosed(s, fd, p, h)
    requires var rec := Recent(s.meta.files[h]);
      rec.Some? && Link(s2.fs, rec.value.path, TmpPath(p)).Some?
      && Rename(Link(s2.fs, rec.value.path, TmpPath(p)).value, TmpPath(p), p) == Some(s3.fs)
    ensures SpareTree(H, s, fd, p) == s3.fs
  {
  }

  // ---------- all branches together ----------

  /** Which branch a Release of p took: q is the closed file it was linked to, if any. */
  ghost predicate Branch(s: Sys, k: Hist, s': Sys, p: Path, h: Hash, o: Env, dir: map<Path, nat>, e: Ending,
                         q: Option<Path>) {
    && (q.None? ==> dir == s.fs.dir)
    && (q.Some? ==> h in s.meta.files && h != ZERO && IsClosed(k, q.value) && q.value in s.fs.dir
                    && q.value in s.meta.nodes && s.meta.nodes[q.value].hash == h
                       && dir == s.fs.dir[p := s.fs.dir[q.value]])
    && (e.Filled? ==> s'.meta.next == s.meta.next + 1 && s'.meta.xattrs == s.meta.xattrs[s.meta.next := map[]]
                      && e.m.xattr == Some(s.meta.next) && (IsUnique(s.meta.files, h) || q.Some?))
    && (!e.Filled? ==> s'.meta.next == s.meta.next && s'.meta.xattrs == s.meta.xattrs)
  }

  /** The newest record of the content names a path. */
  predicate HasCopy(files: Files, h: Hash) {
    h in files && Recent(files[h]).Some? && Recent(files[h]).value.path != []
  }

  /** All of the calls a Release makes succeed. */
  predicate AllWell(o: Env) {
    o.fstatOk && o.linkOk && o.lstatOk && o.renameOk && o.spareOk && o.spareStatOk && o.tmpUnlinkOk && o.spareUnlinkOk
  }

  lemma UniqueBranch(H: Hasher, s: Sys, k: Hist, fd: nat, p: Path, o: Env, h: Hash) returns (e: Ending)
    requires Ready(s, fd, p) && h == FinalHash(H, s, p) && IsUnique(s.meta.files, h) && Room(s.meta.files, h)
    ensures var s' := Release(H, s, fd, p, o).sys;
      && Released(s, s', p, fd, h, s.fs.dir, e) && Branch(s, k, s', p, h, o, s.fs.dir, e, None)
      && (AllWell(o) ==> e.Filled? && s'.fs.fds == s.fs.fds - {fd})
  {
    e := UniqueReleased(H, s, fd, p, o, h, Taken(s, fd, p, h));
    TakenShape(s, fd, p, h);
    if o.fstatOk {
      FilledRecord(s, Release(H, s, fd, p, o).sys, p, fd, h, s.fs.dir, e, Taken(s, fd, p, h).meta);
    }
  }

  lemma FilledRecord(s: Sys, s': Sys, p: Path, fd: nat, h: Hash, dir: map<Path, nat>, e: Ending, t: Store)
    requires Released(s, s', p, fd, h, dir, e) && e.Filled? && FilesWF(s.meta.files) && Room(s.meta.files, h)
    requires FreshRecord(t, s'.meta, h, ClaimedRef(s.meta.files, h), p)
    ensures e.m.xattr == Some(t.next)
  {
    ClaimLive(s.meta.files, h, h, ClaimedRef(s.meta.files, h));
    FillLive(Claim(s.meta.files, h), h, ClaimedRef(s.meta.files, h), e.m, h, ClaimedRef(s.meta.files, h));
  }

  lemma GivenUpBranch(H: Hasher, s: Sys, k: Hist, fd: nat, p: Path, o: Env, h: Hash, s2: Sys, r: nat)
    requires Inv(H, s, k) && p in k.open && fd == k.open[p] && p in k.blocks && Ready(s, fd, p)
    requires h == FinalHash(H, s, p) == Fingerprint(H, k.blocks[p]) && !IsUnique(s.meta.files, h)
      && Room(s.meta.files, h)
    requires CollisionFree(H, k.hashed + Inputs(H, k.blocks[p]))
    requires s2 == TakenClosed(s, fd, p, h) && Live(s.meta.files, h, r)
    requires GivesUp(s2, p, Some(s.meta.files[h].list[r]), o) && AllWell(o)
    ensures s.meta.files[h].list[r].path == []
  {
    var rec := s.meta.files[h].list[r];
    var fs2 := CloseEffect(s.fs, fd);
    if rec.path != [] {
      assert RecordOk(s, k, h, r);
      assert PathOk(H, k.hashed, View(s, k, rec.path), rec.path);
      RecordedCopy(H, s, k, p, h, r);
      NothingToGiveUpFor(s2, p, rec, o);
      assert false;
    }
  }

  lemma ReplacedBranch(H: Hasher, s: Sys, k: Hist, fd: nat, p: Path, q: Path, o: Env, h: Hash,
                       s2: Sys)
    returns (e: Ending)
    requires Ready(s, fd, p) && h == FinalHash(H, s, p) && !IsUnique(s.meta.files, h) && Room(s.meta.files, h)
    requires s2 == TakenClosed(s, fd, p, h) && o.spareUnlinkOk && !GivesUp(s2, p, Recent(s.meta.files[h]), o)
    requires Recent(s.meta.files[h]).value.path == q && q in s.fs.dir && s.fs.dir[q] != s.fs.dir[p]
    requires Contents(s.fs)[q] == Contents(s.fs)[p]
    requires o.spareFd !in SpareTree(H, s, fd, p).fds && o.spareIno !in SpareTree(H, s, fd, p).inodes
    requires IsClosed(k, q) && q in s.meta.nodes && s.meta.nodes[q].hash == h
    ensures var s', dir := Release(H, s, fd, p, o).sys, s.fs.dir[p := s.fs.dir[q]];
      && Released(s, s', p, fd, h, dir, e) && Branch(s, k, s', p, h, o, dir, e, Some(q)) && s'.fs.fds == s.fs.fds - {fd}
      && (AllWell(o) ==> e.Filled?)
  {
    e := DuplicateReplaced(H, s, fd, p, q, o, h, s2);
    TakenShape(s, fd, p, h);
    if o.spareOk && o.spareStatOk {
      FilledRecord(s, Release(H, s, fd, p, o).sys, p, fd, h, s.fs.dir[p := s.fs.dir[q]], e, Taken(s, fd, p, h).meta);
    }
  }

  lemma DuplicateBranch(H: Hasher, s: Sys, k: Hist, fd: nat, p: Path, o: Env, h: Hash, s2: Sys)
    returns (dir: map<Path, nat>, e: Ending, q: Option<Path>)
    requires Inv(H, s, k) && p in k.open && fd == k.open[p] && p in k.blocks && Ready(s, fd, p)
    requires h == FinalHash(H, s, p) == Fingerprint(H, k.blocks[p]) && !IsUnique(s.meta.files, h)
      && Room(s.meta.files, h)
    requires CollisionFree(H, k.hashed + Inputs(H, k.blocks[p]))
    requires o.tmpUnlinkOk && o.spareUnlinkOk && s2 == TakenClosed(s, fd, p, h)
    requires o.spareFd !in SpareTree(H, s, fd, p).fds && o.spareIno !in SpareTree(H, s, fd, p).inodes
    ensures var s' := Release(H, s, fd, p, o).sys;
      && Released(s, s', p, fd, h, dir, e) && Branch(s, k, s', p, h, o, dir, e, q) && s'.fs.fds == s.fs.fds - {fd}
      && (AllWell(o) && HasCopy(s.meta.files, h) ==> e.Filled?)
  {
    hide Respond;
    var r := RecentIsLargest(s.meta.files[h]);
    var rec := s.meta.files[h].list[r];
    if GivesUp(s2, p, Some(rec), o) {
      dir, e, q := s.fs.dir, Withdrawn, None;
      DuplicateGivenUp(H, s, fd, p, o, h, s2);
      if AllWell(o) {
        GivenUpBranch(H, s, k, fd, p, o, h, s2, r);
      }
    } else {
      var fs2 := CloseEffect(s.fs, fd);
      dir, q := s.fs.dir[p := s.fs.dir[rec.path]], Some(rec.path);
      EmptyPathUnused(H, s, k);
      RecordedCopy(H, s, k, p, h, r);
      ClosedKey(H, s, k, rec.path, h, r);
      e := ReplacedBranch(H, s, k, fd, p, rec.path, o, h, s2);
    }
  }

  lemma EmptyPathUnused(H: Hasher, s: Sys, k: Hist)
    requires PathsOk(H, s, k)
    ensures [] !in s.fs.dir
  {
    UnusedScratch(H, s, k, []);
  }

  lemma ClosedKey(H: Hasher, s: Sys, k: Hist, q: Path, h: Hash, r: nat)
    requires RecordsOk(s, k) && Live(s.meta.files, h, r) && h != ZERO && s.meta.files[h].list[r].path == q != []
    ensures IsClosed(k, q) && q in s.meta.nodes && s.meta.nodes[q].hash == h && s.meta.nodes[q].ref == r
  {
    assert RecordOk(s, k, h, r);
  }

  lemma NothingToGiveUpFor(s: Sys, p: Path, rec: Meta, o: Env)
    requires WF(s.fs) && Unused(s.fs, TmpPath(p)) && rec.path in s.fs.dir && p in s.fs.dir
      && s.fs.dir[p] != s.fs.dir[rec.path]
    requires AllWell(o)
    ensures !GivesUp(s, p, Some(rec), o)
  {
    var fs' := ReplaceByLink(s.fs, rec.path, p, TmpPath(p));
  }

  lemma ReleasedPrivate(dir: map<Path, nat>, open: map<Path, nat>, p: Path, q: Option<Path>)
    requires PrivateInv(dir, open) && p in dir && (q.Some? ==> q.value in dir && q.value !in open)
    ensures PrivateInv(if q.Some? then dir[p := dir[q.value]] else dir, open - {p})
  {
    var dir' := if q.Some? then dir[p := dir[q.value]] else dir;
    forall x | x in open - {p} ensures Private(dir', x) {
      assert Private(dir, x);
    }
  }

  lemma ReleaseBranch(H: Hasher, s: Sys, k: Hist, fd: nat, p: Path, o: Env)
    returns (dir: map<Path, nat>, e: Ending, q: Option<Path>)
    requires Inv(H, s, k) && Allowed(H, s, k, ERelease(fd, p, o)) && s.handles[fd].writing
    requires p in k.blocks ==> CollisionFree(H, k.hashed + Inputs(H, k.blocks[p]))
    ensures p in k.open && k.open[p] == fd && p in k.blocks && FinalHash(H, s, p) == Fingerprint(H, k.blocks[p])
    ensures var s', h := Release(H, s, fd, p, o).sys, FinalHash(H, s, p);
      && Released(s, s', p, fd, h, dir, e) && Branch(s, k, s', p, h, o, dir, e, q)
      && (AllWell(o) ==> s'.fs.fds == s.fs.fds - {fd})
      && (AllWell(o) && (IsUnique(s.meta.files, h) || HasCopy(s.meta.files, h)) ==> e.Filled?)
  {
    assert Get(k.open, p) == Some(fd);
    FinalHashIsFingerprint(H, s, k, p);
    OpenIsReady(H, s, k, p);
    var h := FinalHash(H, s, p);
    if IsUnique(s.meta.files, h) {
      dir, q := s.fs.dir, None;
      e := UniqueBranch(H, s, k, fd, p, o, h);
    } else {
      dir, e, q := DuplicateBranch(H, s, k, fd, p, o, h, TakenClosed(s, fd, p, h));
    }
  }

  lemma BranchDir(s: Sys, k: Hist, s': Sys, p: Path, h: Hash, o: Env, dir: map<Path, nat>, e: Ending, q: Option<Path>)
    requires Branch(s, k, s', p, h, o, dir, e, q) && p in s.fs.dir
    ensures p in dir && forall x | x != p :: Get(dir, x) == Get(s.fs.dir, x)
    ensures dir == if q.Some? then s.fs.dir[p := s.fs.dir[q.value]] else s.fs.dir
  {
  }

  lemma BranchKeepsInv(H: Hasher, s: Sys, k: Hist, s': Sys, p: Path, fd: nat, h: Hash, o: Env, dir: map<Path, nat>,
                       e: Ending, q: Option<Path>)
    requires Inv(H, s, k) && p in k.open && fd == k.open[p] && p in k.blocks && p in s.fs.dir
    requires h == Fingerprint(H, k.blocks[p]) && Room(s.meta.files, h)
    requires Released(s, s', p, fd, h, dir, e) && Branch(s, k, s', p, h, o, dir, e, q)
    ensures Inv(H, s', ReleasedHist(H, k, p))
  {
    ReleasedPrivate(s.fs.dir, k.open, p, q);
    BranchDir(s, k, s', p, h, o, dir, e, q);
    ReleasedKeepsInv(H, s, k, s', p, fd, h, dir, e);
  }

  lemma ReleaseKeepsInv(H: Hasher, s: Sys, k: Hist, fd: nat, p: Path, o: Env)
    requires Inv(H, s, k) && Allowed(H, s, k, ERelease(fd, p, o)) && s.handles[fd].writing
    requires p in k.blocks ==> CollisionFree(H, k.hashed + Inputs(H, k.blocks[p]))
    ensures p in k.blocks && Inv(H, Release(H, s, fd, p, o).sys, ReleasedHist(H, k, p))
  {
    var dir, e, q := ReleaseBranch(H, s, k, fd, p, o);
    OpenIsReady(H, s, k, p);
    BranchKeepsInv(H, s, k, Release(H, s, fd, p, o).sys, p, fd, FinalHash(H, s, p), o, dir, e, q);
  }
}
