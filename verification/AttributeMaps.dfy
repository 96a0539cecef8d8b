/** Which record points to which attribute map, over all sequential runs: nothing points to a map that does not
    exist, and two live records come to share one exactly when a file with a record is rewritten with new content. */
module AttributeMaps {
  import opened Basics
  import opened StoreModel
  import opened StoreRuns
  import opened Underlying
  import opened Session
  import opened SequentialRuns
  import opened WriteOnceSteps
  import opened WriteOnceRelease

  function XAt(s: Store, l: Loc): Option<nat> {
    if MetaAt(s, l).Some? then MetaAt(s, l).value.xattr else None
  }

  /** Addresses are below the next one. */
  ghost predicate Allocated(s: Store) {
    forall x | x in s.xattrs :: x < s.next
  }

  /** Maps are allocated, and records point to maps that exist. */
  ghost predicate MapsExist(s: Store) {
    && Allocated(s)
    && (forall l | XAt(s, l).Some? :: XAt(s, l).value in s.xattrs)
  }

  /** No two live records point to one map. */
  ghost predicate Distinct(s: Store) {
    forall l, l' | XAt(s, l).Some? && XAt(s, l) == XAt(s, l') :: l == l'
  }

  ghost predicate XInv(s: Store) { MapsExist(s) && Distinct(s) }

  /** A step that keeps both. */
  ghost predicate Tame(s: Store, s': Store) {
    (MapsExist(s) ==> MapsExist(s')) && (XInv(s) ==> XInv(s'))
  }

  /** Every record keeps its map or loses it, except that the record at l0 may get a new one. */
  ghost predicate XGrows(s: Store, s': Store, l0: Loc) {
    && s.next <= s'.next && s.xattrs.Keys <= s'.xattrs.Keys
    && (forall x | x in s'.xattrs :: x in s.xattrs || s.next <= x < s'.next)
    && forall l | XAt(s', l).Some? ::
         XAt(s', l) == XAt(s, l) || (l == l0 && s.next <= XAt(s', l).value < s'.next && XAt(s', l).value in s'.xattrs)
  }

  lemma GrowingIsTame(s: Store, s': Store, l0: Loc)
    requires XGrows(s, s', l0)
    ensures Tame(s, s')
  {
  }

  /** Nothing has changed at all, as far as attribute maps go. */
  ghost predicate XSame(s: Store, s': Store) {
    s'.next == s.next && s'.xattrs.Keys == s.xattrs.Keys && forall l :: XAt(s', l) == XAt(s, l)
  }

  lemma SameIsTame(s: Store, s': Store)
    requires XSame(s, s')
    ensures Tame(s, s')
  {
  }

  // ---------- the operations of the metadata package ----------

  lemma TouchDirX(s: Store, dir: Path, now: Timespec)
    ensures XSame(s, TouchDir(s, dir, now))
  {
  }

  lemma PutX(s: Store, l: Loc, m: Meta)
    requires MetaAt(s, l).Some? ==> m.xattr == MetaAt(s, l).value.xattr
    ensures XSame(s, Put(s, l, m))
  {
  }

  lemma UpdateTimeX(s: Store, l: Loc, a: Option<Timespec>, mt: Option<Timespec>, c: Option<Timespec>)
    ensures XSame(s, UpdateTime(s, l, a, mt, c))
  {
    if MetaAt(s, l).Some? {
      PutX(s, l, WithTime(MetaAt(s, l).value, a, mt, c));
    }
  }

  lemma SetOwnerX(s: Store, l: Loc, owner: Owner)
    ensures XSame(s, SetOwner(s, l, owner))
  {
    if MetaAt(s, l).Some? {
      PutX(s, l, WithOwner(MetaAt(s, l).value, Some(owner.uid), Some(owner.gid)));
    }
  }

  /** A record is given the map that has just been made. */
  lemma PutNewX(s: Store, l: Loc, m: Meta)
    requires m.xattr == Some(s.next)
    ensures XGrows(s, Put(NewXAttrs(s), l, m), l)
  {
  }

  lemma UpdateAllX(s: Store, l: Loc, st: Stat, stable: StableAttr, p: Path)
    ensures Tame(s, UpdateAllFromStat(s, l, st, stable, p))
  {
    if MetaAt(s, l).Some? {
      var m := MetaAt(s, l).value;
      if m.xattr.Some? {
        PutX(s, l, FromStat(m, st, stable, p, m.xattr.value));
        SameIsTame(s, UpdateAllFromStat(s, l, st, stable, p));
      } else {
        PutNewX(s, l, FromStat(m, st, stable, p, s.next));
        GrowingIsTame(s, UpdateAllFromStat(s, l, st, stable, p), l);
      }
    }
  }

  lemma CreateDirEntryX(s: Store, p: Path)
    ensures XGrows(s, CreateDirEntry(s, p), DirLoc(p))
  {
  }

  lemma InstantiateX(H: Hasher, s: Store, p: Path, st: Stat, isDir: bool)
    ensures Tame(s, Instantiate(H, s, p, st, isDir).meta)
  {
    var stable := NewStable(H, p, st);
    if Uninitialised(s, p, isDir) {
      if isDir {
        var t := StoreDir(s, p, stable, st.mode);
        SameIsTame(s, t);
        CreateDirEntryX(t, p);
        GrowingIsTame(t, CreateDirEntry(t, p), DirLoc(p));
        UpdateAllX(CreateDirEntry(t, p), DirLoc(p), st, stable, p);
      } else {
        SameIsTame(s, StoreReg(s, p, stable, st.mode, ZERO, 0));
      }
    }
  }

  lemma DropPathX(s: Store, p: Path)
    requires FilesWF(s.files)
    ensures Tame(s, DropPath(s, p))
  {
    if p in s.nodes {
      forall l | XAt(DropPath(s, p), l).Some? ensures XAt(DropPath(s, p), l) == XAt(s, l) {
        if l.FileLoc? {
          RemoveLive(s.files, s.nodes[p].hash, s.nodes[p].ref, l.h, l.r);
        }
      }
      GrowingIsTame(s, DropPath(s, p), DirLoc(p));
    }
  }

  lemma SweptX(s: Store, dead: set<Path>)
    requires FilesWF(s.files)
    ensures Tame(s, Swept(s, dead))
  {
    forall l | XAt(Swept(s, dead), l).Some? ensures XAt(Swept(s, dead), l) == XAt(s, l) {
      if l.FileLoc? {
        WithoutLive(s.files, KeysOf(s.nodes, dead), l.h, l.r);
      }
    }
    GrowingIsTame(s, Swept(s, dead), DirLoc(ROOT));
  }

  /** A renamed directory takes its map along. */
  lemma RekeyX(s: Store, a: Path, b: Path)
    requires a in s.nodes
    ensures Tame(s, Rekey(s, a, b))
  {
    var s' := Rekey(s, a, b);
    forall l | XAt(s', l).Some?
      ensures XAt(s', l) == XAt(s, if l == DirLoc(b) && s.nodes[a].isDir && a in s.dirs then DirLoc(a) else l)
    {
    }
    if s.nodes[a].isDir && a in s.dirs && a != b {
      assert XAt(s', DirLoc(a)).None?;
    }
  }

  // ---------- events other than Release ----------

  lemma TamePair(s: Store, t: Store, u: Store)
    requires Tame(s, t) && Tame(t, u)
    ensures Tame(s, u)
  {
  }

  lemma TouchedX(s: Store, t: Store, dir: Path, now: Timespec)
    requires Tame(s, t)
    ensures Tame(s, TouchDir(t, dir, now))
  {
    TouchDirX(t, dir, now);
    SameIsTame(t, TouchDir(t, dir, now));
  }

  lemma CreateX(H: Hasher, s: Sys, e: Event)
    requires e.ECreate?
    ensures Tame(s.meta, Step(H, s, e).meta)
  {
    var s1 := NoteCreator(s, e.p, e.caller);
    var got := CreateOrOpen(s.fs, e.p, e.fd, e.ino, e.trunc);
    if e.openOk && got.Some? && e.fstatOk {
      CreateNodeX(H, s1.(fs := got.value), e.parent, e.p, e.fd, e.writing, e.x, e.now);
    }
  }

  lemma CreateNodeX(H: Hasher, s: Sys, parent: Path, p: Path, fd: nat, writing: bool, x: Stat, now: Timespec)
    requires fd in s.fs.fds
    ensures Tame(s.meta, CreateNode(H, s, parent, p, fd, writing, x, now).sys.meta)
  {
    var st := StatOf(s.fs, s.fs.fds[fd], x);
    InstantiateX(H, s.meta, p, st, false);
    TouchedX(s.meta, Instantiate(H, s.meta, p, st, false).meta, parent, now);
  }

  lemma SetattrX(s: Sys, p: Path, i: SetAttrIn, wantsOut: bool, now: Timespec)
    ensures Tame(s.meta, Setattr(s, p, i, wantsOut, now).sys.meta)
  {
    if MetaOf(s.meta, p).Some? {
      var m := SetAttributes(MetaOf(s.meta, p).value, i, wantsOut, now).0;
      SetAttributesKeepsPath(MetaOf(s.meta, p).value, i, wantsOut, now);
      PutX(s.meta, LocOf(s.meta, p).value, m);
      SameIsTame(s.meta, Setattr(s, p, i, wantsOut, now).sys.meta);
    }
  }

  lemma AssignMapX(s: Store, x: nat, m: XAttrs)
    requires x in s.xattrs
    ensures Tame(s, s.(xattrs := s.xattrs[x := m]))
  {
    SameIsTame(s, s.(xattrs := s.xattrs[x := m]));
  }

  lemma MkdirX(H: Hasher, s: Sys, p: Path, caller: Option<Owner>, st: Stat, ok: bool, statOk: bool)
    ensures Tame(s.meta, MakeDir(H, s, p, caller, st, ok, statOk).sys.meta)
  {
    if ok && statOk && Mkdir(s.fs, p).Some? {
      var n := Instantiate(H, s.meta, p, st, true);
      InstantiateX(H, s.meta, p, st, true);
      var t := UpdateAllFromStat(n.meta, DirLoc(p), st, n.stable, p);
      UpdateAllX(n.meta, DirLoc(p), st, n.stable, p);
      TamePair(s.meta, n.meta, t);
      if caller.Some? {
        SetOwnerX(t, DirLoc(p), caller.value);
        SameIsTame(t, SetOwner(t, DirLoc(p), caller.value));
      }
    }
  }

  lemma RenameX(s: Sys, parentA: Path, a: Path, parentB: Path, b: Path, exchange: bool, ok: bool, now: Timespec)
    ensures Tame(s.meta, RenamePath(s, parentA, a, parentB, b, exchange, ok, now).sys.meta)
  {
    if a in s.meta.nodes {
      var t := Rekey(s.meta, a, b);
      RekeyX(s.meta, a, b);
      TouchedX(s.meta, t, parentA, now);
      TouchedX(s.meta, TouchDir(t, parentA, now), parentB, now);
      TouchedX(s.meta, s.meta, parentA, now);
      TouchedX(s.meta, TouchDir(s.meta, parentA, now), parentB, now);
    }
  }

  lemma LinkX(s: Sys, parent: Path, a: Path, b: Path, mode: nat, ok: bool, statOk: bool, now: Timespec)
    ensures Tame(s.meta, HardLink(s, parent, a, b, mode, ok, statOk, now).sys.meta)
  {
    if a in s.meta.nodes {
      var info := s.meta.nodes[a];
      var t := StoreReg(s.meta, b, info.stable, mode, info.hash, info.ref);
      SameIsTame(s.meta, t);
      TouchedX(s.meta, t, parent, now);
    }
  }

  lemma RmdirX(s: Sys, parent: Path, p: Path, ok: bool, now: Timespec)
    ensures Tame(s.meta, RemoveDir(s, parent, p, ok, now).sys.meta)
  {
    var t := RemoveNode(RemoveDirEntry(s.meta, p), p);
    GrowingIsTame(s.meta, t, DirLoc(p));
    TouchedX(s.meta, t, parent, now);
  }

  lemma WriteX(H: Hasher, s: Sys, fd: nat, p: Path, data: Bytes, off: nat, caller: Option<Owner>, written: Option<nat>,
               now: Timespec)
    ensures Tame(s.meta, Write(H, s, fd, p, data, off, caller, written, now).sys.meta)
  {
    if fd in s.handles {
      var l := FileLoc(s.handles[fd].hash, s.handles[fd].ref);
      UpdateTimeX(s.meta, l, None, Some(now), None);
      SameIsTame(s.meta, UpdateTime(s.meta, l, None, Some(now), None));
    }
  }

  lemma NamesX(H: Hasher, s: Sys, e: Event)
    requires FilesWF(s.meta.files)
    requires e.ECreate? || e.EUnlink? || e.ERename? || e.ELink? || e.EMkdir? || e.ERmdir? || e.ELookup?
    ensures Tame(s.meta, Step(H, s, e).meta)
  {
    if e.ECreate? {
      CreateX(H, s, e);
    } else if e.EUnlink? {
      DropPathX(s.meta, e.p);
      TouchedX(s.meta, DropPath(s.meta, e.p), e.parent, e.now);
    } else if e.ERename? {
      RenameX(s, e.parent, e.p, e.parentB, e.b, e.exchange, e.ok, e.now);
    } else if e.ELink? {
      LinkX(s, e.parent, e.p, e.b, e.mode, e.ok, e.statOk, e.now);
    } else if e.EMkdir? {
      MkdirX(H, s, e.p, e.caller, e.x, e.ok, e.statOk);
    } else if e.ERmdir? {
      RmdirX(s, e.parent, e.p, e.ok, e.now);
    } else {
      InstantiateX(H, s.meta, e.p, LstatOf(s.fs, e.p, e.x), e.p in s.fs.folders);
    }
  }

  /** Reading a file or opening a directory. */
  lemma AccessX(H: Hasher, s: Sys, e: Event)
    requires e.ERead? || e.EOpendir?
    ensures Tame(s.meta, Step(H, s, e).meta)
  {
    if e.EOpendir? {
      UpdateTimeX(s.meta, DirLoc(e.p), Some(e.now), None, None);
    } else if e.fd in s.handles {
      UpdateTimeX(s.meta, FileLoc(s.handles[e.fd].hash, s.handles[e.fd].ref), Some(e.now), None, None);
    }
    SameIsTame(s.meta, Step(H, s, e).meta);
  }

  lemma QuietX(H: Hasher, s: Sys, e: Event)
    requires FilesWF(s.meta.files)
    requires e.EOpen? || e.EWrite? || AssignsOnly(e) || e.ERecover?
    ensures Tame(s.meta, Step(H, s, e).meta)
  {
    hide WF;
    if e.EWrite? {
      WriteX(H, s, e.fd, e.p, e.data, e.off, e.caller, e.written, e.now);
    } else if e.ERead? || e.EOpendir? {
      AccessX(H, s, e);
    } else if e.ESetattr? {
      SetattrX(s, e.p, e.i, e.wantsOut, e.now);
    } else if e.ERecover? {
      var fs := RestartWithout(s.fs, e.gone);
      SweptX(s.meta, s.meta.nodes.Keys - (fs.dir.Keys + fs.folders));
    } else if (e.ESetxattr? || e.ERemovexattr?) && e.p != ROOT && XAttrOf(s.meta, e.p).Some? {
      var x := XAttrOf(s.meta, e.p).value;
      var m := s.meta.xattrs[x];
      AssignMapX(s.meta, x, if e.ESetxattr? then SetX(m, e.attr, e.data, e.flags).0 else RemoveX(m, e.attr).0);
    }
  }

  // ---------- Release ----------

  /** What is left of a handle's old record when its Release begins. */
  function OldRecord(s: Sys, fd: nat): Option<Meta>
    requires fd in s.handles
  {
    Lookup(s.meta.files, s.handles[fd].hash, s.handles[fd].ref)
  }

  /** The Releases that leave two records with one map: new content, written through a handle whose file has a
      record with a map, and nothing failing. */
  ghost predicate SharesMap(H: Hasher, s: Sys, fd: nat, p: Path, o: Env) {
    && fd in s.handles && s.handles[fd].writing
    && IsUnique(s.meta.files, FinalHash(H, s, p)) && o.fstatOk && fd in s.fs.fds
    && OldRecord(s, fd).Some? && OldRecord(s, fd).value.xattr.Some?
  }

  /** A default record has no map. */
  lemma ClaimX(s: Store, h: Hash, p: Path)
    requires FilesWF(s.files) && Room(s.files, h)
    ensures XSame(s, SetKey(s.(files := Claim(s.files, h)), p, h, ClaimedRef(s.files, h)))
    ensures !Live(s.files, h, ClaimedRef(s.files, h))
  {
    ClaimWF(s.files, h);
    var t := SetKey(s.(files := Claim(s.files, h)), p, h, ClaimedRef(s.files, h));
    forall l ensures XAt(t, l) == XAt(s, l) {
      if l.FileLoc? {
        ClaimLive(s.files, h, l.h, l.r);
      }
    }
  }

  lemma FreshX(s: Store, s': Store, h: Hash, r: nat, p: Path)
    requires FreshRecord(s, s', h, r, p)
    ensures Tame(s, s')
  {
    GrowingIsTame(s, s', FileLoc(h, r));
  }

  lemma ForgetX(s: Sys, h: Hash, r: nat)
    requires FilesWF(s.meta.files)
    ensures Tame(s.meta, Forget(s, h, r).meta)
  {
    forall l | XAt(Forget(s, h, r).meta, l).Some? ensures XAt(Forget(s, h, r).meta, l) == XAt(s.meta, l) {
      if l.FileLoc? {
        RemoveLive(s.meta.files, h, r, l.h, l.r);
      }
    }
    GrowingIsTame(s.meta, Forget(s, h, r).meta, FileLoc(h, r));
  }

  /** The record at loc is filled in with the map of the file's old record, if it had one. */
  lemma MigrateX(s: Store, loc: Loc, st: Stat, stable: StableAttr, p: Path, was: Meta, owner: Owner, now: Timespec)
    requires loc.FileLoc? && MetaAt(s, loc).Some?
    ensures var s' := FillUnique(s, loc, st, stable, p, Some(was), owner, now);
      && s'.xattrs == s.xattrs && s'.next == s.next && XAt(s', loc) == was.xattr
      && MetaAt(s', loc) == Some(WithTime(MigrateRegular(was, st), None, Some(now), Some(now)))
      && forall l | l != loc :: MetaAt(s', l) == MetaAt(s, l)
  {
    var m := MigrateRegular(was, st);
    MetaAfterPut(s, loc, m);
    MetaAfterPut(Put(s, loc, m), loc, WithTime(m, None, Some(now), Some(now)));
    forall l | l != loc ensures MetaAt(FillUnique(s, loc, st, stable, p, Some(was), owner, now), l) == MetaAt(s, l) {
      assert MetaAt(Put(s, loc, m), l) == MetaAt(s, l);
    }
  }

  lemma UniqueX(s: Sys, fd: nat, p: Path, loc: Loc, l0: Loc, was: Option<Meta>, owner: Owner, o: Env)
    requires loc.FileLoc? && loc != l0 && MetaAt(s.meta, loc) == Some(DEFAULT_META) && MetaAt(s.meta, l0) == was
    ensures var s' := ReleaseUnique(s, fd, p, loc, was, owner, o).sys.meta;
      && (MapsExist(s.meta) ==> MapsExist(s'))
      && (XInv(s.meta) ==> (XInv(s') <==> !(o.fstatOk && fd in s.fs.fds && was.Some? && was.value.xattr.Some?)))
  {
    if o.fstatOk && fd in s.fs.fds {
      var st := StatOf(s.fs, s.fs.fds[fd], o.st);
      var s' := FillUnique(s.meta, loc, st, o.stable, p, was, owner, o.now);
      if was.None? {
        FillUniqueFresh(s.meta, loc.h, loc.r, st, o.stable, p, owner, o.now);
        FreshX(s.meta, s', loc.h, loc.r, p);
      } else {
        MigrateX(s.meta, loc, st, o.stable, p, was.value, owner, o.now);
        assert XAt(s', l0) == XAt(s.meta, l0) == was.value.xattr == XAt(s', loc);
        assert forall l | l != loc :: XAt(s', l) == XAt(s.meta, l);
      }
    }
  }

  lemma DuplicateX(s: Sys, p: Path, h: Hash, r: nat, rec: Option<Meta>, was: Option<Meta>, owner: Owner, o: Env)
    requires FilesWF(s.meta.files) && Live(s.meta.files, h, r)
    ensures Tame(s.meta, ReleaseDuplicate(s, p, h, r, rec, was, owner, o).sys.meta)
  {
    ForgetX(s, h, r);
    if GivesUp(s, p, rec, o) {
      GivingUpWithdraws(s, p, h, r, rec, was, owner, o);
    } else {
      GoingOnFinishes(s, p, h, r, rec, was, owner, o);
      var linked := Link(s.fs, rec.value.path, TmpPath(p)).value;
      FinishX(s.(fs := Rename(linked, TmpPath(p), p).value), p, h, r, StatOf(linked, linked.dir[TmpPath(p)], o.st),
              was, owner, o);
    }
  }

  lemma FinishX(s: Sys, p: Path, h: Hash, r: nat, st: Stat, was: Option<Meta>, owner: Owner, o: Env)
    requires FilesWF(s.meta.files) && Live(s.meta.files, h, r)
    ensures Tame(s.meta, FinishDuplicate(s, p, h, r, st, was, owner, o).sys.meta)
  {
    var outcome := OpenCreate(s.fs, SparePath(p), o.spareFd, o.spareIno);
    if was.Some? {
      ForgetX(s, h, r);
    } else if o.spareOk && outcome.Some? && o.spareStatOk {
      var fs1 := Close(outcome.value, o.spareFd);
      if SparePath(p) in fs1.dir {
        var spare := StatOf(fs1, fs1.dir[SparePath(p)], o.spareSt);
        FillDuplicateFresh(s.meta, h, r, spare, st, p, owner, o.now);
        FreshX(s.meta, FillDuplicate(s.meta, FileLoc(h, r), spare, st, p, owner, o.now), h, r, p);
      }
    }
  }

  /** The exact condition: in a state where all live records have maps of their own, a Release leaves them so if
      and only if it does not rewrite a file that has a map with content that is new. */
  lemma ReleaseSharesMap(H: Hasher, s: Sys, fd: nat, p: Path, o: Env)
    requires FilesWF(s.meta.files) && Room(s.meta.files, FinalHash(H, s, p))
    ensures var s' := Release(H, s, fd, p, o).sys.meta;
      (MapsExist(s.meta) ==> MapsExist(s')) && (XInv(s.meta) ==> (XInv(s') <==> !SharesMap(H, s, fd, p, o)))
  {
    if fd in s.handles && s.handles[fd].writing {
      var h := FinalHash(H, s, p);
      var r, t := ClaimedRef(s.meta.files, h), Taken(s, fd, p, h);
      var l0 := FileLoc(s.handles[fd].hash, s.handles[fd].ref);
      ClaimX(s.meta, h, p);
      SameIsTame(s.meta, t.meta);
      SameIsTame(t.meta, s.meta);
      ClaimWF(s.meta.files, h);
      ClaimLive(s.meta.files, h, h, r);
      if OldRecord(s, fd).Some? {
        ClaimLive(s.meta.files, h, l0.h, l0.r);
      }
      ReleaseTakenX(H, s, fd, p, o, h, r, t, l0);
    }
  }

  lemma ReleaseTakenX(H: Hasher, s: Sys, fd: nat, p: Path, o: Env, h: Hash, r: nat, t: Sys, l0: Loc)
    requires fd in s.handles && s.handles[fd].writing && h == FinalHash(H, s, p) && r == ClaimedRef(s.meta.files, h)
    requires t == Taken(s, fd, p, h) && FilesWF(t.meta.files) && MetaAt(t.meta, FileLoc(h, r)) == Some(DEFAULT_META)
    requires l0 == FileLoc(s.handles[fd].hash, s.handles[fd].ref)
    requires OldRecord(s, fd).Some? ==> l0 != FileLoc(h, r) && MetaAt(t.meta, l0) == OldRecord(s, fd)
    ensures var s' := Release(H, s, fd, p, o).sys.meta;
      (MapsExist(t.meta) ==> MapsExist(s')) && (XInv(t.meta) ==> (XInv(s') <==> !SharesMap(H, s, fd, p, o)))
  {
    var was, owner := OldRecord(s, fd), BufferOwner(s, p);
    if !IsUnique(s.meta.files, h) {
      DuplicateX(t.(fs := Close(s.fs, fd)), p, h, r, Recent(CreateEntry(s.meta.files, h)[h]), was, owner, o);
    } else if was.Some? {
      UniqueX(t, fd, p, FileLoc(h, r), l0, was, owner, o);
    } else {
      NewFileX(t, fd, p, FileLoc(h, r), owner, o);
    }
  }

  lemma NewFileX(s: Sys, fd: nat, p: Path, loc: Loc, owner: Owner, o: Env)
    requires loc.FileLoc? && MetaAt(s.meta, loc) == Some(DEFAULT_META)
    ensures Tame(s.meta, ReleaseUnique(s, fd, p, loc, None, owner, o).sys.meta)
  {
    if o.fstatOk && fd in s.fs.fds {
      var st := StatOf(s.fs, s.fs.fds[fd], o.st);
      FillUniqueFresh(s.meta, loc.h, loc.r, st, o.stable, p, owner, o.now);
      FreshX(s.meta, FillUnique(s.meta, loc, st, o.stable, p, None, owner, o.now), loc.h, loc.r, p);
    }
  }

  // ---------- runs ----------

  ghost predicate Shares(H: Hasher, s: Sys, e: Event) { e.ERelease? && SharesMap(H, s, e.fd, e.p, e.o) }

  /** One event of a sequential run, whatever it is. */
  lemma StepSharesMap(H: Hasher, s: Sys, e: Event)
    requires FilesWF(s.meta.files) && Headroom(H, s, e)
    ensures MapsExist(s.meta) ==> MapsExist(Step(H, s, e).meta)
    ensures XInv(s.meta) ==> (XInv(Step(H, s, e).meta) <==> !Shares(H, s, e))
  {
    if e.ERelease? {
      ReleaseSharesMap(H, s, e.fd, e.p, e.o);
    } else if e.ECreate? || e.EUnlink? || e.ERename? || e.ELink? || e.EMkdir? || e.ERmdir? || e.ELookup? {
      NamesX(H, s, e);
    } else {
      QuietX(H, s, e);
    }
  }

  /** In every sequential run records point to maps that exist. */
  lemma {:induction false} RunsKeepHeap(H: Hasher, es: seq<Event>)
    requires Sequential(H, es)
    ensures MapsExist(After(H, es).meta)
  {
    hide Respond;
    if es != [] {
      var init := es[..|es| - 1];
      SequentialPrefix(H, es, |es| - 1);
      RunsKeepHeap(H, init);
      StoreWellFormed(H, init);
      StepSharesMap(H, After(H, init), es[|es| - 1]);
    }
  }

  /** As long as no Release of a sequential run rewrites such a file, no two records share a map. */
  lemma {:induction false} MapsStayDistinct(H: Hasher, es: seq<Event>)
    requires Sequential(H, es)
    requires forall i | 0 <= i < |es| :: !Shares(H, After(H, es[..i]), es[i])
    ensures XInv(After(H, es).meta)
  {
    if es != [] {
      var init, n := es[..|es| - 1], |es| - 1;
      SequentialPrefix(H, es, n);
      forall i | 0 <= i < |init| ensures !Shares(H, After(H, init[..i]), init[i]) {
        assert init[..i] == es[..i];
      }
      assert !Shares(H, After(H, es[..n]), es[n]);
      MapsStayDistinct(H, init);
      StoreWellFormed(H, init);
      StepSharesMap(H, After(H, init), es[n]);
    }
  }
}
