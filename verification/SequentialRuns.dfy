/** Properties of every sequential run of the whole machine: rewrites, hard links, renames, failed
    Releases and restarts included. */
module SequentialRuns {
  import opened Basics
  import opened StoreModel
  import opened StoreRuns
  import opened Underlying
  import opened Session

  /** Headroom for the one operation that increments the counters. */
  ghost predicate Headroom(H: Hasher, s: Sys, e: Event) {
    e.ERelease? ==> Room(s.meta.files, FinalHash(H, s, e.p))
  }

  ghost predicate Sequential(H: Hasher, es: seq<Event>) {
    forall i | 0 <= i < |es| :: Headroom(H, After(H, es[..i]), es[i])
  }

  /** a may become b: still well-formed, entries that live in both have evolved, empty files keep theirs. */
  ghost predicate Advances(a: Files, b: Files) {
    && FilesWF(b)
    && (forall h | h in a && h in b :: Evolved(a[h], b[h]))
    && (forall r | Live(a, ZERO, r) :: Live(b, ZERO, r))
  }

  lemma AdvancesTrans(a: Files, b: Files, c: Files)
    requires Advances(a, b) && Advances(b, c)
    requires forall h | h in a && h in c :: h in b
    ensures Advances(a, c)
  {
  }

  lemma ClaimAdvances(files: Files, h: Hash)
    requires FilesWF(files) && Room(files, h)
    ensures Advances(files, Claim(files, h)) && files.Keys <= Claim(files, h).Keys
  {
    ClaimWF(files, h);
    AddMetaWF(CreateEntry(files, h)[h]);
  }

  lemma RemoveAdvances(files: Files, h: Hash, r: nat)
    requires FilesWF(files)
    ensures Advances(files, Remove(files, h, r)) && Remove(files, h, r).Keys <= files.Keys
  {
    RemoveWF(files, h, r);
  }

  lemma FillAdvances(files: Files, h: Hash, r: nat, m: Meta)
    requires FilesWF(files)
    ensures Advances(files, Fill(files, h, r, m)) && Fill(files, h, r, m).Keys == files.Keys
  {
    FillWF(files, h, r, m);
  }

  lemma WithoutAdvances(files: Files, ks: set<(Hash, nat)>)
    requires FilesWF(files)
    ensures Advances(files, Without(files, ks))
  {
    WithoutWF(files, ks);
    forall r | Live(files, ZERO, r) ensures Live(Without(files, ks), ZERO, r) {
      WithoutLive(files, ks, ZERO, r);
    }
  }

  // ---------- the shape of each operation's effect on the map ----------

  /** Nothing but the record (h, r) differs from s, and it is still there. */
  ghost predicate OnlyRecord(s: Store, s': Store, h: Hash, r: nat) {
    && s'.dirs == s.dirs && s'.nodes == s.nodes
    && Live(s.files, h, r) && Live(s'.files, h, r)
    && s'.files == Fill(s.files, h, r, s'.files[h].list[r])
  }

  lemma OnlyRecordTrans(s: Store, t: Store, u: Store, h: Hash, r: nat)
    requires OnlyRecord(s, t, h, r) && OnlyRecord(t, u, h, r)
    ensures OnlyRecord(s, u, h, r)
  {
    var m, m' := t.files[h].list[r], u.files[h].list[r];
    assert s.files[h].list[r := m][r := m'] == s.files[h].list[r := m'];
  }

  lemma PutOnlyRecord(s: Store, h: Hash, r: nat, m: Meta)
    requires Live(s.files, h, r)
    ensures OnlyRecord(s, Put(s, FileLoc(h, r), m), h, r)
  {
  }

  lemma UpdateTimeOnlyRecord(s: Store, h: Hash, r: nat, a: Option<Timespec>, mt: Option<Timespec>, c: Option<Timespec>)
    requires Live(s.files, h, r)
    ensures OnlyRecord(s, UpdateTime(s, FileLoc(h, r), a, mt, c), h, r)
  {
    PutOnlyRecord(s, h, r, WithTime(s.files[h].list[r], a, mt, c));
  }

  lemma NewFileOnlyRecord(s: Store, h: Hash, r: nat, st: Stat, stable: StableAttr, p: Path, owner: Owner)
    requires Live(s.files, h, r)
    ensures OnlyRecord(s, SetOwner(UpdateAllFromStat(s, FileLoc(h, r), st, stable, p), FileLoc(h, r), owner), h, r)
  {
    var l, m := FileLoc(h, r), s.files[h].list[r];
    var t := UpdateAllFromStat(s, l, st, stable, p);
    assert OnlyRecord(s, t, h, r) by {
      if m.xattr.Some? {
        PutOnlyRecord(s, h, r, FromStat(m, st, stable, p, m.xattr.value));
      } else {
        PutOnlyRecord(NewXAttrs(s), h, r, FromStat(m, st, stable, p, s.next));
      }
    }
    PutOnlyRecord(t, h, r, WithOwner(t.files[h].list[r], Some(owner.uid), Some(owner.gid)));
    OnlyRecordTrans(s, t, SetOwner(t, l, owner), h, r);
  }

  /** Filling in a record is one assignment to it, however many fields the code sets one by one. */
  lemma FillUniqueShape(s: Store, h: Hash, r: nat, st: Stat, stable: StableAttr, p: Path, was: Option<Meta>,
                        owner: Owner, now: Timespec)
    requires Live(s.files, h, r)
    ensures OnlyRecord(s, FillUnique(s, FileLoc(h, r), st, stable, p, was, owner, now), h, r)
  {
    var l := FileLoc(h, r);
    var t := if was.Some? then Put(s, l, MigrateRegular(was.value, st))
             else SetOwner(UpdateAllFromStat(s, l, st, stable, p), l, owner);
    if was.Some? {
      PutOnlyRecord(s, h, r, MigrateRegular(was.value, st));
    } else {
      NewFileOnlyRecord(s, h, r, st, stable, p, owner);
    }
    UpdateTimeOnlyRecord(t, h, r, None, Some(now), Some(now));
    OnlyRecordTrans(s, t, UpdateTime(t, l, None, Some(now), Some(now)), h, r);
  }

  lemma FillDuplicateShape(s: Store, h: Hash, r: nat, spare: Stat, link: Stat, p: Path, owner: Owner, now: Timespec)
    requires Live(s.files, h, r)
    ensures OnlyRecord(s, FillDuplicate(s, FileLoc(h, r), spare, link, p, owner, now), h, r)
  {
    var l := FileLoc(h, r);
    var m := FromSpare(s.files[h].list[r], spare, link, p, owner.uid, owner.gid, s.next);
    var t := Put(NewXAttrs(s), l, m);
    PutOnlyRecord(NewXAttrs(s), h, r, m);
    UpdateTimeOnlyRecord(t, h, r, None, Some(now), Some(now));
    OnlyRecordTrans(s, t, UpdateTime(t, l, None, Some(now), Some(now)), h, r);
  }

  datatype Ending = Untouched | Claimed | Filled(m: Meta) | Withdrawn

  /** What a Release leaves in the map: nothing new, a default record, a filled one, or only a used number. */
  function Ended(files: Files, h: Hash, e: Ending): Files {
    match e
    case Untouched => files
    case Claimed => Claim(files, h)
    case Filled(m) => Fill(Claim(files, h), h, ClaimedRef(files, h), m)
    case Withdrawn => Remove(Claim(files, h), h, ClaimedRef(files, h))
  }

  lemma FinishShape(s: Sys, p: Path, files: Files, h: Hash, st: Stat, was: Option<Meta>, owner: Owner, o: Env)
    returns (e: Ending)
    requires s.meta.files == Claim(files, h)
    ensures FinishDuplicate(s, p, h, ClaimedRef(files, h), st, was, owner, o).sys.meta.files == Ended(files, h, e)
  {
    var r := ClaimedRef(files, h);
    var out := FinishDuplicate(s, p, h, r, st, was, owner, o).sys;
    if was.Some? {
      e := Withdrawn;
    } else if out.meta == s.meta {
      e := Claimed;
    } else {
      var fs1 := Close(OpenCreate(s.fs, SparePath(p), o.spareFd, o.spareIno).value, o.spareFd);
      var spare := StatOf(fs1, fs1.dir[SparePath(p)], o.spareSt);
      FillDuplicateShape(s.meta, h, r, spare, st, p, owner, o.now);
      e := Filled(out.meta.files[h].list[r]);
    }
  }

  /** The branches of the duplicate case that give up before the rename. */
  ghost predicate GivesUp(s: Sys, p: Path, rec: Option<Meta>, o: Env) {
    || rec.None? || !o.linkOk || Link(s.fs, rec.value.path, TmpPath(p)).None? || !o.lstatOk
    || !o.renameOk || Rename(Link(s.fs, rec.value.path, TmpPath(p)).value, TmpPath(p), p).None?
  }

  lemma GivingUpWithdraws(s: Sys, p: Path, h: Hash, ref: nat, rec: Option<Meta>, was: Option<Meta>, owner: Owner,
                          o: Env)
    requires GivesUp(s, p, rec, o)
    ensures ReleaseDuplicate(s, p, h, ref, rec, was, owner, o).sys.meta == Forget(s, h, ref).meta
  {
  }

  lemma GoingOnFinishes(s: Sys, p: Path, h: Hash, ref: nat, rec: Option<Meta>, was: Option<Meta>, owner: Owner, o: Env)
    requires !GivesUp(s, p, rec, o)
    ensures var linked := Link(s.fs, rec.value.path, TmpPath(p)).value;
      ReleaseDuplicate(s, p, h, ref, rec, was, owner, o) ==
      FinishDuplicate(s.(fs := Rename(linked, TmpPath(p), p).value), p, h, ref,
                      StatOf(linked, linked.dir[TmpPath(p)], o.st), was, owner, o)
  {
  }

  lemma DuplicateShape(s: Sys, p: Path, files: Files, h: Hash, rec: Option<Meta>, was: Option<Meta>, owner: Owner,
                       o: Env)
    returns (e: Ending)
    requires s.meta.files == Claim(files, h)
    ensures ReleaseDuplicate(s, p, h, ClaimedRef(files, h), rec, was, owner, o).sys.meta.files == Ended(files, h, e)
  {
    if GivesUp(s, p, rec, o) {
      GivingUpWithdraws(s, p, h, ClaimedRef(files, h), rec, was, owner, o);
      e := Withdrawn;
    } else {
      GoingOnFinishes(s, p, h, ClaimedRef(files, h), rec, was, owner, o);
      var linked := Link(s.fs, rec.value.path, TmpPath(p)).value;
      e := FinishShape(s.(fs := Rename(linked, TmpPath(p), p).value), p, files, h,
                       StatOf(linked, linked.dir[TmpPath(p)], o.st), was, owner, o);
    }
  }

  lemma UniqueShape(s: Sys, fd: nat, p: Path, files: Files, h: Hash, was: Option<Meta>, owner: Owner, o: Env)
    returns (e: Ending)
    requires s.meta.files == Claim(files, h)
    ensures ReleaseUnique(s, fd, p, FileLoc(h, ClaimedRef(files, h)), was, owner, o).sys.meta.files
      == Ended(files, h, e)
  {
    if !o.fstatOk || fd !in s.fs.fds {
      e := Claimed;
    } else {
      var st := StatOf(s.fs, s.fs.fds[fd], o.st);
      FillUniqueShape(s.meta, h, ClaimedRef(files, h), st, o.stable, p, was, owner, o.now);
      var out := FillUnique(s.meta, FileLoc(h, ClaimedRef(files, h)), st, o.stable, p, was, owner, o.now);
      e := Filled(out.files[h].list[ClaimedRef(files, h)]);
    }
  }

  lemma ReleaseShape(H: Hasher, s: Sys, fd: nat, p: Path, o: Env) returns (e: Ending)
    ensures Release(H, s, fd, p, o).sys.meta.files == Ended(s.meta.files, FinalHash(H, s, p), e)
  {
    if fd !in s.handles || !s.handles[fd].writing {
      e := Untouched;
    } else {
      var h := FinalHash(H, s, p);
      var ref := ClaimedRef(s.meta.files, h);
      var was := Lookup(s.meta.files, s.handles[fd].hash, s.handles[fd].ref);
      var s1 := Taken(s, fd, p, h);
      if IsUnique(s.meta.files, h) {
        e := UniqueShape(s1, fd, p, s.meta.files, h, was, BufferOwner(s, p), o);
      } else {
        e := DuplicateShape(s1.(fs := Close(s.fs, fd)), p, s.meta.files, h, Recent(CreateEntry(s.meta.files, h)[h]),
                            was,
                            BufferOwner(s, p), o);
      }
    }
  }

  lemma EndedAdvances(files: Files, h: Hash, e: Ending)
    requires FilesWF(files) && Room(files, h)
    ensures Advances(files, Ended(files, h, e))
  {
    var r := ClaimedRef(files, h);
    ClaimAdvances(files, h);
    match e
    case Untouched =>
    case Claimed =>
    case Filled(m) =>
      FillAdvances(Claim(files, h), h, r, m);
      AdvancesTrans(files, Claim(files, h), Fill(Claim(files, h), h, r, m));
    case Withdrawn =>
      RemoveAdvances(Claim(files, h), h, r);
      AdvancesTrans(files, Claim(files, h), Remove(Claim(files, h), h, r));
  }

  lemma EndedKeeps(files: Files, h: Hash, e: Ending, h': Hash, r': nat)
    requires FilesWF(files) && Room(files, h) && Live(files, h', r')
    ensures Lookup(Ended(files, h, e), h', r') == Lookup(files, h', r')
  {
    var r := ClaimedRef(files, h);
    ClaimWF(files, h);
    ClaimLive(files, h, h', r');
    match e
    case Untouched =>
    case Claimed =>
    case Filled(m) => FillLive(Claim(files, h), h, r, m, h', r');
    case Withdrawn => RemoveLive(Claim(files, h), h, r, h', r');
  }

  /** No Release, on any branch, in any state, touches a record that was there before. */
  lemma ReleaseKeepsRecords(H: Hasher, s: Sys, fd: nat, p: Path, o: Env, h': Hash, r': nat)
    requires FilesWF(s.meta.files) && Room(s.meta.files, FinalHash(H, s, p))
    requires Live(s.meta.files, h', r')
    ensures Lookup(Release(H, s, fd, p, o).sys.meta.files, h', r') == Lookup(s.meta.files, h', r')
  {
    var e := ReleaseShape(H, s, fd, p, o);
    EndedKeeps(s.meta.files, FinalHash(H, s, p), e, h', r');
  }

  /** Every other operation assigns to at most one record, removes at most one, or sweeps. */
  ghost predicate SmallChange(files: Files, now: Files) {
    || now == files
    || (exists h, r, m :: now == Fill(files, h, r, m))
    || (exists h, r :: now == Remove(files, h, r))
    || (exists ks :: now == Without(files, ks))
  }

  lemma WriteSmall(H: Hasher, s: Sys, e: Event)
    requires e.EWrite?
    ensures SmallChange(s.meta.files, Step(H, s, e).meta.files)
  {
    if e.fd in s.handles {
      var l := FileLoc(s.handles[e.fd].hash, s.handles[e.fd].ref);
      if MetaAt(s.meta, l).Some? {
        assert UpdateTime(s.meta, l, None, Some(e.now), None).files
            == Fill(s.meta.files, l.h, l.r, WithTime(MetaAt(s.meta, l).value, None, Some(e.now), None));
      }
    }
  }

  lemma ReadSmall(H: Hasher, s: Sys, e: Event)
    requires e.ERead?
    ensures SmallChange(s.meta.files, Step(H, s, e).meta.files)
  {
    if e.fd in s.handles {
      var l := FileLoc(s.handles[e.fd].hash, s.handles[e.fd].ref);
      if MetaAt(s.meta, l).Some? {
        assert UpdateTime(s.meta, l, Some(e.now), None, None).files
            == Fill(s.meta.files, l.h, l.r, WithTime(MetaAt(s.meta, l).value, Some(e.now), None, None));
      }
    }
  }

  lemma SetattrSmall(H: Hasher, s: Sys, e: Event)
    requires e.ESetattr?
    ensures SmallChange(s.meta.files, Step(H, s, e).meta.files)
  {
    if MetaOf(s.meta, e.p).Some? && !s.meta.nodes[e.p].isDir {
      var info := s.meta.nodes[e.p];
      var m := SetAttributes(MetaOf(s.meta, e.p).value, e.i, e.wantsOut, e.now).0;
      assert Step(H, s, e).meta.files == Fill(s.meta.files, info.hash, info.ref, m);
    }
  }

  lemma UnlinkSmall(H: Hasher, s: Sys, e: Event)
    requires e.EUnlink?
    ensures SmallChange(s.meta.files, Step(H, s, e).meta.files)
  {
    if e.p in s.meta.nodes {
      var info := s.meta.nodes[e.p];
      assert DropPath(s.meta, e.p).files == Remove(s.meta.files, info.hash, info.ref);
    }
  }

  lemma RecoverSmall(H: Hasher, s: Sys, e: Event)
    requires e.ERecover?
    ensures SmallChange(s.meta.files, Step(H, s, e).meta.files)
  {
    var fs := RestartWithout(s.fs, e.gone);
    var ks := KeysOf(s.meta.nodes, s.meta.nodes.Keys - (fs.dir.Keys + fs.folders));
    assert Step(H, s, e).meta.files == Without(s.meta.files, ks);
  }

  lemma InstantiateKeepsFiles(H: Hasher, s: Store, p: Path, st: Stat, isDir: bool)
    ensures Instantiate(H, s, p, st, isDir).meta.files == s.files
  {
  }

  lemma UpdateDirKeepsFiles(s: Store, p: Path, st: Stat, stable: StableAttr)
    ensures UpdateAllFromStat(s, DirLoc(p), st, stable, p).files == s.files
  {
  }

  lemma CreateKeepsFiles(H: Hasher, s: Sys, e: Event)
    requires e.ECreate?
    ensures Step(H, s, e).meta.files == s.meta.files
  {
    hide Instantiate, Release, ReleaseDuplicate, ReleaseUnique;
    var s1 := NoteCreator(s, e.p, e.caller);
    var got := CreateOrOpen(s.fs, e.p, e.fd, e.ino, e.trunc);
    if e.openOk && got.Some? && e.fstatOk {
      InstantiateKeepsFiles(H, s.meta, e.p, StatOf(got.value, got.value.fds[e.fd], e.x), false);
      assert CreateNode(H, s1.(fs := got.value), e.parent, e.p, e.fd, e.writing, e.x, e.now).sys.meta.files
        == s.meta.files;
    }
  }

  lemma MkdirKeepsFiles(H: Hasher, s: Sys, e: Event)
    requires e.EMkdir?
    ensures Step(H, s, e).meta.files == s.meta.files
  {
    var n := Instantiate(H, s.meta, e.p, e.x, true);
    InstantiateKeepsFiles(H, s.meta, e.p, e.x, true);
    UpdateDirKeepsFiles(n.meta, e.p, e.x, n.stable);
    assert MakeDir(H, s, e.p, e.caller, e.x, e.ok, e.statOk).sys.meta.files == s.meta.files;
  }

  lemma LookupKeepsFiles(H: Hasher, s: Sys, e: Event)
    requires e.ELookup?
    ensures Step(H, s, e).meta.files == s.meta.files
  {
    InstantiateKeepsFiles(H, s.meta, e.p, LstatOf(s.fs, e.p, e.x), e.p in s.fs.folders);
    assert LookupPath(H, s, e.p, e.x).sys.meta.files == s.meta.files;
  }

  lemma RenameKeepsFiles(s: Sys, parentA: Path, a: Path, parentB: Path, b: Path, exchange: bool, ok: bool,
                         now: Timespec)
    ensures RenamePath(s, parentA, a, parentB, b, exchange, ok, now).sys.meta.files == s.meta.files
  {
    hide MetaAt, Renamed, Respond;
    if a in s.meta.nodes {
      assert Rekey(s.meta, a, b).files == s.meta.files;
    }
  }

  lemma LinkKeepsFiles(s: Sys, parent: Path, a: Path, b: Path, mode: nat, ok: bool, statOk: bool, now: Timespec)
    ensures HardLink(s, parent, a, b, mode, ok, statOk, now).sys.meta.files == s.meta.files
  {
  }

  lemma RmdirKeepsFiles(s: Sys, parent: Path, p: Path, ok: bool, now: Timespec)
    ensures RemoveDir(s, parent, p, ok, now).sys.meta.files == s.meta.files
  {
  }

  lemma QuietStep(H: Hasher, s: Sys, e: Event)
    requires !e.ERelease? && !e.EWrite? && !e.ERead? && !e.EUnlink? && !e.ESetattr? && !e.ERecover?
    ensures Step(H, s, e).meta.files == s.meta.files
  {
    if e.ECreate? {
      CreateKeepsFiles(H, s, e);
    } else if e.EMkdir? {
      MkdirKeepsFiles(H, s, e);
    } else if e.ELookup? {
      LookupKeepsFiles(H, s, e);
    } else if e.ERename? {
      RenameKeepsFiles(s, e.parent, e.p, e.parentB, e.b, e.exchange, e.ok, e.now);
    } else if e.ELink? {
      LinkKeepsFiles(s, e.parent, e.p, e.b, e.mode, e.ok, e.statOk, e.now);
    } else if e.ERmdir? {
      RmdirKeepsFiles(s, e.parent, e.p, e.ok, e.now);
    }
  }

  lemma OtherStepsSmall(H: Hasher, s: Sys, e: Event)
    requires !e.ERelease?
    ensures SmallChange(s.meta.files, Step(H, s, e).meta.files)
  {
    if e.EWrite? {
      WriteSmall(H, s, e);
    } else if e.ERead? {
      ReadSmall(H, s, e);
    } else if e.EUnlink? {
      UnlinkSmall(H, s, e);
    } else if e.ESetattr? {
      SetattrSmall(H, s, e);
    } else if e.ERecover? {
      RecoverSmall(H, s, e);
    } else {
      QuietStep(H, s, e);
    }
  }

  lemma StepAdvances(H: Hasher, s: Sys, e: Event)
    requires FilesWF(s.meta.files) && Headroom(H, s, e)
    ensures Advances(s.meta.files, Step(H, s, e).meta.files)
  {
    var files, now := s.meta.files, Step(H, s, e).meta.files;
    if e.ERelease? {
      var ending := ReleaseShape(H, s, e.fd, e.p, e.o);
      EndedAdvances(files, FinalHash(H, s, e.p), ending);
    } else {
      OtherStepsSmall(H, s, e);
      if now == files {
      } else if h, r, m :| now == Fill(files, h, r, m) {
        FillAdvances(files, h, r, m);
      } else if h, r :| now == Remove(files, h, r) {
        RemoveAdvances(files, h, r);
      } else {
        var ks :| now == Without(files, ks);
        WithoutAdvances(files, ks);
      }
    }
  }

  lemma ReleaseIs(H: Hasher, s: Sys, fd: nat, p: Path, o: Env)
    ensures Respond(H, s, ERelease(fd, p, o)) == Release(H, s, fd, p, o)
  {
  }

  // ---------- whole runs ----------

  lemma SequentialPrefix(H: Hasher, es: seq<Event>, n: nat)
    requires Sequential(H, es) && n <= |es|
    ensures Sequential(H, es[..n])
    ensures n < |es| ==> Headroom(H, After(H, es[..n]), es[n]) && es[..n + 1][..n] == es[..n]
  {
    forall i | 0 <= i < n ensures Headroom(H, After(H, es[..n][..i]), es[..n][i]) {
      assert es[..n][..i] == es[..i];
    }
  }

  /** The store is well-formed between any two operations of any sequential run. */
  lemma {:induction false} StoreWellFormed(H: Hasher, es: seq<Event>)
    requires Sequential(H, es)
    ensures FilesWF(After(H, es).meta.files)
  {
    hide Respond;
    if es != [] {
      var init := es[..|es| - 1];
      var s, e := After(H, init), es[|es| - 1];
      SequentialPrefix(H, es, |es| - 1);
      StoreWellFormed(H, init);
      StepKeepsStoreWF(H, s, e);
    }
  }

  lemma StepKeepsStoreWF(H: Hasher, s: Sys, e: Event)
    requires FilesWF(s.meta.files) && Headroom(H, s, e)
    ensures FilesWF(Step(H, s, e).meta.files)
  {
    StepAdvances(H, s, e);
  }

  /** While an entry lives its counter never falls and no reference number comes back. */
  lemma {:induction false} NoReferenceReissued(H: Hasher, es: seq<Event>, i: nat, h: Hash, r: nat)
    requires Sequential(H, es) && i <= |es|
    requires forall j | i <= j <= |es| :: h in After(H, es[..j]).meta.files
    ensures es[..|es|] == es && Evolved(After(H, es[..i]).meta.files[h], After(H, es).meta.files[h])
    ensures !Live(After(H, es[..i]).meta.files, h, r) && r <= After(H, es[..i]).meta.files[h].counter
            ==> !Live(After(H, es).meta.files, h, r)
  {
    if i == |es| {
      assert es[..i] == es;
    } else {
      var init := es[..|es| - 1];
      SequentialPrefix(H, es, |es| - 1);
      forall j | i <= j <= |init| ensures h in After(H, init[..j]).meta.files {
        assert init[..j] == es[..j];
      }
      assert init[..i] == es[..i] && es[..|es|] == es;
      NoReferenceReissued(H, init, i, h, r);
      StoreWellFormed(H, init);
      StepAdvances(H, After(H, init), es[|es| - 1]);
      assert h in After(H, es[..|es| - 1]).meta.files && h in After(H, es[..|es|]).meta.files;
    }
  }

  /** What the empty-file class holds at one moment it holds ever after. */
  lemma {:induction false} EmptyFilesStay(H: Hasher, es: seq<Event>, i: nat, r: nat)
    requires Sequential(H, es) && i <= |es| && Live(After(H, es[..i]).meta.files, ZERO, r)
    ensures Live(After(H, es).meta.files, ZERO, r)
  {
    hide Respond;
    if i == |es| {
      assert es[..i] == es;
    } else {
      var init := es[..|es| - 1];
      SequentialPrefix(H, es, |es| - 1);
      assert init[..i] == es[..i];
      EmptyFilesStay(H, init, i, r);
      StoreWellFormed(H, init);
      StepAdvances(H, After(H, init), es[|es| - 1]);
    }
  }

  lemma GaplessIsCounted(files: Files)
    requires FilesWF(files) && ZERO in files
    ensures files[ZERO].refCount == files[ZERO].counter
    ensures forall r :: r in files[ZERO].list <==> 1 <= r <= files[ZERO].counter
  {
    EmptyClassSize(files[ZERO].list, files[ZERO].counter);
  }

  /** Over any run the empty-file class holds exactly the references 1..IndexCounter, as many as its count
      says; what it held at an earlier moment it still holds. */
  lemma EmptyFileClass(H: Hasher, es: seq<Event>, i: nat)
    requires Sequential(H, es) && i <= |es|
    ensures var was, now := After(H, es[..i]).meta.files, After(H, es).meta.files;
      && (ZERO in now ==> now[ZERO].refCount == now[ZERO].counter
                          && forall r :: r in now[ZERO].list <==> 1 <= r <= now[ZERO].counter)
      && (forall r | Live(was, ZERO, r) :: Live(now, ZERO, r))
  {
    StoreWellFormed(H, es);
    if ZERO in After(H, es).meta.files {
      GaplessIsCounted(After(H, es).meta.files);
    }
    forall r | Live(After(H, es[..i]).meta.files, ZERO, r) ensures Live(After(H, es).meta.files, ZERO, r) {
      EmptyFilesStay(H, es, i, r);
    }
  }

  /** RetrieveRecent finds the newest live record whenever Release calls it on existing content. */
  lemma RecentIsDefined(H: Hasher, es: seq<Event>, h: Hash) returns (r: nat)
    requires Sequential(H, es) && h in After(H, es).meta.files
    ensures var e := After(H, es).meta.files[h];
      Live(After(H, es).meta.files, h, r) && Recent(e) == Some(e.list[r]) && forall k | k in e.list :: k <= r
  {
    StoreWellFormed(H, es);
    r := RecentIsLargest(After(H, es).meta.files[h]);
  }

  // ---------- empty files are never linked ----------

  /** In any state: closing an empty file changes no name, no bytes and no link count; at most an inode without a
      name is freed. */
  lemma EmptyFilesAreNeverLinked(H: Hasher, s: Sys, fd: nat, p: Path, o: Env)
    requires FinalHash(H, s, p) == ZERO
    ensures var fs' := Release(H, s, fd, p, o).sys.fs;
      && fs'.dir == s.fs.dir && fs'.inodes.Keys <= s.fs.inodes.Keys
         && (forall i | i in fs'.inodes :: fs'.inodes[i] == s.fs.inodes[i])
      && (forall i | i in s.fs.inodes && i !in fs'.inodes :: s.fs.inodes[i].nlink == 0)
  {
    hide FillUnique;
  }

  /** In any state: what a Release does to the tree, and what it replies, does not depend on the records of the
      empty-file class, only on whether the handle's file has a record. */
  lemma EmptyRecordsAreNeverSources(H: Hasher, s: Sys, files: Files, fd: nat, p: Path, o: Env)
    requires files - {ZERO} == s.meta.files - {ZERO}
    requires fd in s.handles ==>
      (Live(files, s.handles[fd].hash, s.handles[fd].ref)
       <==> Live(s.meta.files, s.handles[fd].hash, s.handles[fd].ref))
    ensures var r, r' := Release(H, s, fd, p, o), Release(H, s.(meta := s.meta.(files := files)), fd, p, o);
      r'.sys.fs == r.sys.fs && r'.reply == r.reply
  {
    var t, h := s.(meta := s.meta.(files := files)), FinalHash(H, s, p);
    if h != ZERO && fd in s.handles && s.handles[fd].writing {
      assert h in files <==> h in s.meta.files - {ZERO};
      assert h in files ==> files[h] == (s.meta.files - {ZERO})[h] == s.meta.files[h];
      if h in files {
        var rec := Recent(files[h]);
        var was, was' := Lookup(s.meta.files, s.handles[fd].hash, s.handles[fd].ref),
          Lookup(files, s.handles[fd].hash, s.handles[fd].ref);
        var s1, t1 := Taken(s, fd, p, h).(fs := Close(s.fs, fd)), Taken(t, fd, p, h).(fs := Close(s.fs, fd));
        SameTreeDuplicate(s1, t1, p, h, ClaimedRef(files, h), rec, was, was', BufferOwner(s, p), o);
      }
    }
  }

  lemma SameTreeDuplicate(s: Sys, t: Sys, p: Path, h: Hash, ref: nat, rec: Option<Meta>, was: Option<Meta>,
                          was': Option<Meta>,
                          owner: Owner, o: Env)
    requires t.fs == s.fs && (was.Some? <==> was'.Some?)
    ensures var r, r' := ReleaseDuplicate(s, p, h, ref, rec, was, owner, o),
      ReleaseDuplicate(t, p, h, ref, rec, was', owner, o);
      r'.sys.fs == r.sys.fs && r'.reply == r.reply
  {
  }
}
