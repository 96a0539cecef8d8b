/** What the attribute calls answer and change, in any state, attribute by attribute. */
module AttributeCalls {
  import opened Basics
  import opened Fingerprints
  import opened StoreModel
  import opened Underlying
  import opened Session
  import opened WriteOnce
  import opened WriteOnceRelease
  import opened Transparency

  // ---------- Getattr ----------

  /** a shows the time t, with the widths of fuse.Attr. */
  predicate ShowsTime(sec: nat, nsec: nat, t: Timespec) { sec == t.sec % U64 && nsec == t.nsec % U32 }

  /** Each attribute is the one in the record. */
  predicate ShowsRecord(a: Attr, m: Meta) {
    && a.ino == m.ino && a.mode == m.mode && a.nlink == m.nlink % U32 && a.uid == m.uid && a.gid == m.gid
    && a.rdev == m.rdev % U32 && a.size == m.size % U64 && a.blocks == m.blocks % U64 && a.blksize == m.blksize % U32
    && ShowsTime(a.atime, a.atimensec, m.atim) && ShowsTime(a.mtime, a.mtimensec, m.mtim)
    && ShowsTime(a.ctime, a.ctimensec, m.ctim)
  }

  /** Owner, mode, device, blocks and times are those that the kernel answers. */
  predicate ShowsAnswer(a: Attr, x: Stat) {
    && a.mode == x.mode && a.uid == x.uid && a.gid == x.gid && a.rdev == x.rdev % U32
    && a.blocks == x.blocks % U64 && a.blksize == x.blksize % U32
    && ShowsTime(a.atime, a.atimensec, x.atim) && ShowsTime(a.mtime, a.mtimensec, x.mtim)
    && ShowsTime(a.ctime, a.ctimensec, x.ctim)
  }

  /** The file itself: its inode, how many names it has, how many bytes it holds, and the kernel's answer. */
  predicate ShowsInode(a: Attr, fs: FS, ino: nat, x: Stat) {
    a.ino == ino && a.nlink == At(fs, ino).nlink % U32 && a.size == |At(fs, ino).bytes| % U64 && ShowsAnswer(a, x)
  }

  /** The inode a Getattr without a record looks at: by name, or through the descriptor f. */
  function AskedFor(fs: FS, p: Path, f: Option<nat>): Option<nat> {
    if f.None? then Get(fs.dir, p) else Get(fs.fds, f.value)
  }

  /** In any state: the record if there is one; without one the file itself, by name or through a descriptor, or what
      lstat() says of a folder; and ENOENT or EBADF exactly if there is nothing to look at. */
  lemma GetattrShows(s: Sys, p: Path, f: Option<nat>, x: Stat)
    ensures var a, was, ino := Getattr(s, p, f, x), MetaOf(s.meta, p), AskedFor(s.fs, p, f);
      && (a.None? <==> was.None? && ino.None? && (f.Some? || p !in s.fs.folders))
      && (was.Some? ==> ShowsRecord(a.value, was.value))
      && (was.None? && ino.Some? ==> ShowsInode(a.value, s.fs, ino.value, x))
      && (was.None? && ino.None? && a.Some? ==>
            ShowsAnswer(a.value, x) && a.value.ino == x.ino && a.value.nlink == x.nlink % U32
            && a.value.size == x.size % U64)
  {
  }

  /** In a write-once run a file that has not been released shows as many bytes as have been written to it, through
      its name and through the descriptor that is writing it, and one link while it is being written. */
  lemma UnreleasedShows(H: Hasher, es: seq<Event>, p: Path, f: Option<nat>, x: Stat)
    requires WriteOnceRun(H, es) && CollisionFree(H, HistAfter(H, es).hashed) && Unreleased(HistAfter(H, es), p)
    requires f.Some? ==> Get(HistAfter(H, es).open, p) == f
    ensures var s, k := After(H, es), HistAfter(H, es);
      && p in s.fs.dir && p in PlainAfter(es) && Getattr(s, p, f, x).Some? &&
      var a := Getattr(s, p, f, x).value;
      && a.size == |PlainAfter(es)[p]| % U64 && a.ino == s.fs.dir[p] && ShowsAnswer(a, x)
      && (p in k.open ==> a.nlink == 1)
  {
    hide Respond, Inv, WriteOnceRun, PlainAfter, Getattr, MetaOf, Contents, WF;
    RunKeepsInv(H, es);
    DeduplicationIsInvisible(H, es);
    NoRecordYet(H, After(H, es), HistAfter(H, es), p, f);
    GetattrShows(After(H, es), p, f, x);
  }

  lemma NoRecordYet(H: Hasher, s: Sys, k: Hist, p: Path, f: Option<nat>)
    requires Inv(H, s, k) && Unreleased(k, p) && (f.Some? ==> Get(k.open, p) == f)
    ensures p in s.fs.dir && p in Contents(s.fs) && MetaOf(s.meta, p).None? && AskedFor(s.fs, p, f) == Some(s.fs.dir[p])
    ensures At(s.fs, s.fs.dir[p]).bytes == Contents(s.fs)[p] && (p in k.open ==> At(s.fs, s.fs.dir[p]).nlink == 1)
  {
    assert !Live(s.meta.files, ZERO, 0);
    hide FilesWF, WF;
    assert PathOk(H, k.hashed, View(s, k, p), p);
    if p in k.open {
      assert Private(s.fs.dir, p);
      OnlyName(s.fs, p);
    }
  }

  // ---------- Setattr ----------

  /** A time as utimensat() is given it: an absent one is the UTIME_OMIT marker. */
  predicate ShowsTimeOrOmit(sec: nat, nsec: nat, t: Option<Timespec>) {
    if t.Some? then ShowsTime(sec, nsec, t.value) else sec == 0 && nsec == 0x3fff_fffe
  }

  predicate SetsTimes(i: SetAttrIn) { i.mtime.Some? || i.atime.Some? }

  /** The attributes that `i` asks for in place of those that `was` shows, but for the access time. The change time
      becomes the time of the call only when the caller wants no attributes back. */
  predicate Granted(i: SetAttrIn, wantsOut: bool, now: Timespec, was: Attr, out: Attr) {
    && out.mode == (if i.mode.Some? then i.mode.value else was.mode)
    && out.uid == (if i.uid.Some? then i.uid.value else was.uid)
    && out.gid == (if i.gid.Some? then i.gid.value else was.gid)
    && out.size == (if i.size.Some? then i.size.value % U64 else was.size)
    && (if SetsTimes(i) then ShowsTimeOrOmit(out.mtime, out.mtimensec, i.mtime)
        else (out.mtime, out.mtimensec) == (was.mtime, was.mtimensec))
    && (if !wantsOut then ShowsTime(out.ctime, out.ctimensec, now)
        else if SetsTimes(i) then ShowsTimeOrOmit(out.ctime, out.ctimensec, i.ctime)
        else (out.ctime, out.ctimensec) == (was.ctime, was.ctimensec))
    && (out.ino, out.nlink, out.blocks, out.blksize, out.rdev)
       == (was.ino, was.nlink, was.blocks, was.blksize, was.rdev)
  }

  predicate AccessGranted(i: SetAttrIn, was: Attr, out: Attr) {
    if SetsTimes(i) then ShowsTimeOrOmit(out.atime, out.atimensec, i.atime)
    else (out.atime, out.atimensec) == (was.atime, was.atimensec)
  }

  /** Nothing but the record of p differs. */
  ghost predicate OnlyRecordOf(s: Sys, s': Sys, p: Path) {
    && s'.fs == s.fs && s'.buffers == s.buffers && s'.handles == s.handles
    && s'.meta.nodes == s.meta.nodes && s'.meta.xattrs == s.meta.xattrs && s'.meta.next == s.meta.next
    && forall l :: Some(l) != LocOf(s.meta, p) ==> MetaAt(s'.meta, l) == MetaAt(s.meta, l)
  }

  /** In any state: the reply is OK if and only if there is no record, or no owner is asked for, or the owner is known,
      and EINVAL otherwise. If OK, Getattr then shows what was asked for; if EINVAL, it shows the requested mode and
      everything else as before. Without a record, nothing happens. */
  lemma SetattrShows(s: Sys, p: Path, i: SetAttrIn, wantsOut: bool, now: Timespec, f: Option<nat>, x: Stat)
    ensures var r, was := Setattr(s, p, i, wantsOut, now), MetaOf(s.meta, p);
      && (r.reply == Err(OK) <==> was.None? || (i.uid.None? && i.gid.None?) || i.ownerKnown)
      && (r.reply == Err(OK) || r.reply == Err(EINVAL))
      && (was.None? ==> r.sys == s) && OnlyRecordOf(s, r.sys, p) && XAttrMapOf(r.sys.meta, p) == XAttrMapOf(s.meta, p)
    ensures MetaOf(s.meta, p).Some? ==>
      var r, was := Setattr(s, p, i, wantsOut, now), Getattr(s, p, f, x);
      && was.Some? && Getattr(r.sys, p, f, x).Some? &&
      var out := Getattr(r.sys, p, f, x).value;
      if r.reply == Err(OK) then Granted(i, wantsOut, now, was.value, out) && AccessGranted(i, was.value, out)
      else out == was.value.(mode := if i.mode.Some? then i.mode.value else was.value.mode)
  {
    hide SetAttributes, FillAttr, Granted, AccessGranted;
    if MetaOf(s.meta, p).Some? {
      var m := MetaOf(s.meta, p).value;
      SetAttributesGrants(m, i, wantsOut, now);
      RecordReplaced(s, p, SetAttributes(m, i, wantsOut, now).0);
    }
  }

  lemma SetAttributesGrants(m: Meta, i: SetAttrIn, wantsOut: bool, now: Timespec)
    ensures var r, was := SetAttributes(m, i, wantsOut, now), FillAttr(m);
      && (r.1 == OK <==> (i.uid.None? && i.gid.None?) || i.ownerKnown) && (r.1 == OK || r.1 == EINVAL)
      && r.0.xattr == m.xattr
      && (r.1 == OK ==> Granted(i, wantsOut, now, was, FillAttr(r.0)) && AccessGranted(i, was, FillAttr(r.0)))
      && (r.1 != OK ==> FillAttr(r.0) == was.(mode := if i.mode.Some? then i.mode.value else was.mode))
  {
    SetAttributesRecord(m, i, wantsOut, now);
    hide SetAttributes;
  }

  /** The same in the record. */
  lemma SetAttributesRecord(m: Meta, i: SetAttrIn, wantsOut: bool, now: Timespec)
    ensures var r, t := SetAttributes(m, i, wantsOut, now), SetsTimes(i);
      && (r.1 == OK <==> (i.uid.None? && i.gid.None?) || i.ownerKnown) && (r.1 == OK || r.1 == EINVAL)
      && r.0.(mode := m.mode, uid := m.uid, gid := m.gid, size := m.size, atim := m.atim, mtim := m.mtim,
              ctim := m.ctim) == m
      && r.0.mode == (if i.mode.Some? then i.mode.value else m.mode)
      && (r.1 != OK ==> r.0 == m.(mode := r.0.mode))
      && (r.1 == OK ==>
            && r.0.uid == (if i.uid.Some? then i.uid.value else m.uid)
            && r.0.gid == (if i.gid.Some? then i.gid.value else m.gid)
            && r.0.size == (if i.size.Some? then i.size.value else m.size)
            && r.0.mtim == (if t then UtimeToTimespec(i.mtime) else m.mtim)
            && r.0.atim == (if t then UtimeToTimespec(i.atime) else m.atim)
            && r.0.ctim == (if !wantsOut then now else if t then UtimeToTimespec(i.ctime) else m.ctim))
  {
  }

  /** The record of p becomes m, which points to the same attribute map. */
  lemma RecordReplaced(s: Sys, p: Path, m: Meta)
    requires MetaOf(s.meta, p).Some? && m.xattr == MetaOf(s.meta, p).value.xattr
    ensures var t := s.(meta := Put(s.meta, LocOf(s.meta, p).value, m));
      OnlyRecordOf(s, t, p) && MetaOf(t.meta, p) == Some(m) && XAttrMapOf(t.meta, p) == XAttrMapOf(s.meta, p)
  {
    hide Live;
    var l := LocOf(s.meta, p).value;
    MetaAfterPut(s.meta, l, m);
    forall l' | l' != l ensures MetaAt(Put(s.meta, l, m), l') == MetaAt(s.meta, l') {
      PutElsewhere(s.meta, l, m, l');
    }
  }

  lemma PutElsewhere(s: Store, l: Loc, m: Meta, l': Loc)
    requires l != l'
    ensures MetaAt(Put(s, l, m), l') == MetaAt(s, l') && Put(s, l, m).nodes == s.nodes
      && Put(s, l, m).xattrs == s.xattrs
  {
  }

  // ---------- Setxattr and Removexattr ----------

  /** Nothing but the attribute map of p differs, and in it nothing but the name attr. */
  ghost predicate OnlyAttribute(s: Sys, s': Sys, p: Path, attr: Bytes) {
    && s' == s.(meta := s.meta.(xattrs := s'.meta.xattrs))
    && (forall y: nat | Some(y) != XAttrOf(s.meta, p) :: Get(s'.meta.xattrs, y) == Get(s.meta.xattrs, y))
    && XAttrMapOf(s.meta, p).Some? && XAttrMapOf(s'.meta, p).Some?
    && forall n | n != attr :: Get(XAttrMapOf(s'.meta, p).value, n) == Get(XAttrMapOf(s.meta, p).value, n)
  }

  predicate CreateFlag(flags: nat) { flags % 2 == 1 }

  predicate ReplaceFlag(flags: nat) { (flags / 2) % 2 == 1 }

  /** What has no attribute map, and the root, which ignores its own. */
  lemma XattrWithoutMap(s: Sys, p: Path, attr: Bytes, data: Bytes, flags: nat)
    requires p == ROOT || XAttrMapOf(s.meta, p).None?
    ensures Setxattr(s, p, attr, data, flags) == Removexattr(s, p, attr)
      == Res(s, Err(if p == ROOT then OK else ENODATA))
  {
  }

  /** In any state, for any flags: EEXIST if and only if XATTR_CREATE is set and the name is there, ENODATA if and only
      if XATTR_REPLACE alone is set and it is not, and nothing changes then. Otherwise the name has `data`, whatever it
      had before, and every other name of this and of every other map has what it had. */
  lemma SetxattrSets(s: Sys, p: Path, attr: Bytes, data: Bytes, flags: nat)
    requires p != ROOT && XAttrMapOf(s.meta, p).Some?
    ensures var r, m := Setxattr(s, p, attr, data, flags), XAttrMapOf(s.meta, p).value;
      && (r.reply == Err(EEXIST) <==> CreateFlag(flags) && attr in m)
      && (r.reply == Err(ENODATA) <==> !CreateFlag(flags) && ReplaceFlag(flags) && attr !in m)
      && (r.reply == Err(OK) || r.reply == Err(EEXIST) || r.reply == Err(ENODATA))
      && (r.reply != Err(OK) ==> r.sys == s)
      && (r.reply == Err(OK) ==> OnlyAttribute(s, r.sys, p, attr)
                                 && Get(XAttrMapOf(r.sys.meta, p).value, attr) == Some(data))
  {
    hide SetX;
    SetXSets(XAttrMapOf(s.meta, p).value, attr, data, flags);
    MapReplaced(s, p, SetX(XAttrMapOf(s.meta, p).value, attr, data, flags).0);
  }

  lemma SetXSets(m: XAttrs, attr: Bytes, data: Bytes, flags: nat)
    ensures var r := SetX(m, attr, data, flags);
      && (r.1 == EEXIST <==> CreateFlag(flags) && attr in m)
      && (r.1 == ENODATA <==> !CreateFlag(flags) && ReplaceFlag(flags) && attr !in m)
      && (r.1 == OK || r.1 == EEXIST || r.1 == ENODATA)
      && (r.1 != OK ==> r.0 == m)
      && (r.1 == OK ==> Get(r.0, attr) == Some(data) && forall n | n != attr :: Get(r.0, n) == Get(m, n))
  {
  }

  /** The map that p's record points to becomes m. */
  lemma MapReplaced(s: Sys, p: Path, m: XAttrs)
    requires XAttrOf(s.meta, p).Some?
    ensures var x := XAttrOf(s.meta, p).value; var t := s.(meta := s.meta.(xattrs := s.meta.xattrs[x := m]));
      && XAttrOf(t.meta, p) == XAttrOf(s.meta, p) && XAttrMapOf(t.meta, p) == Some(m)
      && (m == s.meta.xattrs[x] ==> t == s)
  {
    var x := XAttrOf(s.meta, p).value;
    assert MetaOf(s.meta.(xattrs := s.meta.xattrs[x := m]), p) == MetaOf(s.meta, p);
    if m == s.meta.xattrs[x] {
      assert s.meta.xattrs[x := m] == s.meta.xattrs;
    }
  }

  /** In any state: ENODATA if and only if the name is not there, and nothing changes then; otherwise that name goes,
      and no other. */
  lemma RemovexattrRemoves(s: Sys, p: Path, attr: Bytes)
    requires p != ROOT && XAttrMapOf(s.meta, p).Some?
    ensures var r, m := Removexattr(s, p, attr), XAttrMapOf(s.meta, p).value;
      && (r.reply == Err(ENODATA) <==> attr !in m) && (r.reply == Err(OK) <==> attr in m)
      && (r.reply != Err(OK) ==> r.sys == s)
      && (r.reply == Err(OK) ==> OnlyAttribute(s, r.sys, p, attr) && attr !in XAttrMapOf(r.sys.meta, p).value)
  {
    hide RemoveX;
    RemoveXRemoves(XAttrMapOf(s.meta, p).value, attr);
    MapReplaced(s, p, RemoveX(XAttrMapOf(s.meta, p).value, attr).0);
  }

  lemma RemoveXRemoves(m: XAttrs, attr: Bytes)
    ensures var r := RemoveX(m, attr);
      && (r.1 == ENODATA <==> attr !in m) && (r.1 == OK <==> attr in m) && (r.1 != OK ==> r.0 == m)
      && (r.1 == OK ==> attr !in r.0 && forall n | n != attr :: Get(r.0, n) == Get(m, n))
  {
  }

  /** A name that was not there is added unless the flags forbid it; removing it again restores the whole state. */
  lemma RemovexattrUndoesSetxattr(s: Sys, p: Path, attr: Bytes, data: Bytes, flags: nat)
    requires p != ROOT && XAttrMapOf(s.meta, p).Some? && attr !in XAttrMapOf(s.meta, p).value
    requires Setxattr(s, p, attr, data, flags).reply == Err(OK)
    ensures Removexattr(Setxattr(s, p, attr, data, flags).sys, p, attr) == Res(s, Err(OK))
  {
    var x, r := XAttrOf(s.meta, p).value, Setxattr(s, p, attr, data, flags);
    PutThenDrop(s.meta.xattrs[x], attr, data);
    assert MetaOf(r.sys.meta, p) == MetaOf(s.meta, p);
    assert r.sys.meta.xattrs[x := s.meta.xattrs[x]] == s.meta.xattrs;
  }
}
