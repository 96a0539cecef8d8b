/** The virtual filesystem as it runs: global maps and records changed step by step, with early exits, over a
    kernel whose state is `kernel`. Every method is proved against its function on values. */
module Vfs {
  import opened Basics
  import opened StoreModel
  import opened Underlying
  import opened Session
  import opened MetadataStore
  import opened XAttrListing

  /** The scan of RetrieveRecent stops before it wraps around. */
  ghost predicate StopsEarly(e: Entry) {
    e.counter == 0 || exists r :: r in e.list && r <= e.counter
  }

  ghost predicate Scannable(files: Files) {
    forall h | h in files :: StopsEarly(files[h])
  }

  lemma MadeEntryStopsEarly(files: Files, h: Hash)
    requires Scannable(files)
    ensures StopsEarly(CreateEntry(files, h)[h])
  {
  }

  /** Which is so between any two operations of a sequential run. */
  lemma WellFormedIsScannable(files: Files)
    requires FilesWF(files)
    ensures Scannable(files)
  {
    forall h | h in files ensures StopsEarly(files[h]) {
      var r := RecentIsLargest(files[h]);
    }
  }

  lemma FillThenRemove(files: Files, h: Hash, r: nat, m: Meta)
    requires h != ZERO && r != 0
    ensures Remove(Fill(files, h, r, m), h, r) == Remove(files, h, r)
    ensures !Live(Remove(files, h, r), h, r)
  {
    if Live(files, h, r) {
      assert files[h].list[r := m] - {r} == files[h].list - {r};
    }
  }

  /** What the link, lstat and rename calls of Release come to. */
  ghost predicate LinkOutcome(fs: FS, copy: Path, p: Path, o: Env, e: Errno, fs': FS, st: Stat) {
    var linked := Link(fs, copy, TmpPath(p));
    if !o.linkOk || linked.None? then e == ENOLINK && fs' == fs
    else if !o.lstatOk then e == ENOENT && fs' == Scratch(linked.value, TmpPath(p), o.tmpUnlinkOk)
    else
      var renamed := Rename(linked.value, TmpPath(p), p);
      if !o.renameOk || renamed.None? then e == EIO && fs' == Scratch(linked.value, TmpPath(p), o.tmpUnlinkOk)
      else e == OK && fs' == renamed.value && st == StatOf(linked.value, linked.value.dir[TmpPath(p)], o.st)
  }

  lemma LinkedOver(s: Sys, p: Path, h: Hash, ref: nat, rec: Meta, was: Option<Meta>, owner: Owner, o: Env, e: Errno,
                   fs: FS, st: Stat)
    requires LinkOutcome(s.fs, rec.path, p, o, e, fs, st)
    ensures ReleaseDuplicate(s, p, h, ref, Some(rec), was, owner, o)
         == if e != OK then Res(Forget(s.(fs := fs), h, ref), Err(e))
            else FinishDuplicate(s.(fs := fs), p, h, ref, st, was, owner, o)
  {
  }

  lemma CreateNodeIs(H: Hasher, s: Sys, parent: Path, p: Path, fd: nat, writing: bool, x: Stat, now: Timespec, n: Node)
    requires fd in s.fs.fds && n == Instantiate(H, s.meta, p, StatOf(s.fs, s.fs.fds[fd], x), false)
    ensures CreateNode(H, s, parent, p, fd, writing, x, now) ==
      Res(if n.reply.Panic? then s.(meta := n.meta)
          else s.(meta := TouchDir(n.meta, parent, now),
                  handles := s.handles[fd := Handle(p, writing, n.hash, n.ref)]), n.reply)
  {
  }

  lemma PutOverNew(s: Store, b: Path, x: Meta)
    ensures Put(CreateDirEntry(s, b), DirLoc(b), x) == CreateDirEntry(s, b).(dirs := s.dirs[b := x])
  {
    assert CreateDirEntry(s, b).dirs[b := x] == s.dirs[b := x];
  }

  /** The maps after a rename the kernel has carried out. */
  function MapsRenamed(s: Store, parentA: Path, a: Path, parentB: Path, b: Path, now: Timespec): Store
    requires a in s.nodes
  {
    if s.nodes[a].isDir && a !in s.dirs then Rekey(s, a, b)
    else TouchDir(TouchDir(Rekey(s, a, b), parentA, now), parentB, now)
  }

  lemma RenamePathOfNothing(s: Sys, parentA: Path, a: Path, parentB: Path, b: Path, exchange: bool, ok: bool,
                            now: Timespec)
    requires a !in s.meta.nodes
    ensures RenamePath(s, parentA, a, parentB, b, exchange, ok, now) == Res(s, Err(ENOENT))
  {
  }

  lemma RenamePathIs(s: Sys, parentA: Path, a: Path, parentB: Path, b: Path, exchange: bool, ok: bool, now: Timespec)
    requires a in s.meta.nodes
    ensures var e := RenameError(s.fs, parentA, a, parentB, b, s.meta.nodes[a].isDir, exchange, ok);
      RenamePath(s, parentA, a, parentB, b, exchange, ok, now) ==
      if e == OK
      then Res(s.(fs := Renamed(s.fs, a, b, s.meta.nodes[a].isDir, exchange).value,
                  meta := MapsRenamed(s.meta, parentA, a, parentB, b, now)), Err(OK))
      else Res(s.(meta := TouchDir(TouchDir(s.meta, parentA, now), parentB, now)), Err(e))
  {
  }

  lemma MakeDirIs(H: Hasher, s: Sys, p: Path, caller: Option<Owner>, st: Stat, n: Node)
    requires Mkdir(s.fs, p).Some? && n == Instantiate(H, s.meta, p, st, true)
    ensures MakeDir(H, s, p, caller, st, true, true) ==
      var t := s.(fs := Mkdir(s.fs, p).value, meta := n.meta);
      if n.reply != Err(OK) then Res(t, Panic)
      else
        Res(t.(meta := DirOwned(n.meta, p, caller, st, n.stable)), if p in n.meta.dirs then Err(OK) else Err(ENODATA))
  {
  }

  /** What Mkdir does to a directory's record once the node is there. */
  function DirOwned(s: Store, p: Path, caller: Option<Owner>, st: Stat, stable: StableAttr): Store {
    if p !in s.dirs then s
    else
      var v := UpdateAllFromStat(s, DirLoc(p), st, stable, p);
      if caller.Some? then SetOwner(v, DirLoc(p), caller.value) else v
  }

  /** The record of directory a, copied under b and taken out under a. */
  function DirRecordMoved(s: Store, a: Path, b: Path): Store
    requires a in s.dirs
  {
    RemoveDirEntry(CreateDirEntry(s, b).(dirs := s.dirs[b := s.dirs[a]]), a)
  }

  /** A reference of h taken, and made the key of p. */
  function Keyed(s: Store, p: Path, h: Hash): Store {
    SetKey(s.(files := Claim(s.files, h)), p, h, ClaimedRef(s.files, h))
  }

  /** What is left of Release once the buffer and the handle are gone and the old record has been looked up. */
  ghost function Deduplicated(s: Sys, fd: nat, p: Path, h: Hash, was: Option<Meta>, owner: Owner, o: Env): Res {
    var ref, s1 := ClaimedRef(s.meta.files, h), s.(meta := Keyed(s.meta, p, h));
    if IsUnique(s.meta.files, h) then ReleaseUnique(s1, fd, p, FileLoc(h, ref), was, owner, o)
    else ReleaseDuplicate(s1.(fs := Close(s.fs, fd)), p, h, ref, Recent(CreateEntry(s.meta.files, h)[h]), was, owner, o)
  }

  lemma DuplicateCase(s: Sys, fd: nat, p: Path, h: Hash, was: Option<Meta>, owner: Owner, o: Env, s1: Sys,
                      rec: Option<Meta>)
    requires !IsUnique(s.meta.files, h) && rec == Recent(CreateEntry(s.meta.files, h)[h])
    requires s1 == s.(fs := Close(s.fs, fd), meta := Keyed(s.meta, p, h))
    ensures Deduplicated(s, fd, p, h, was, owner, o)
         == ReleaseDuplicate(s1, p, h, ClaimedRef(s.meta.files, h), rec, was, owner, o)
  {
  }

  lemma ReleaseIsDeduplicated(H: Hasher, s: Sys, fd: nat, p: Path, o: Env)
    requires fd in s.handles && s.handles[fd].writing
    ensures Release(H, s, fd, p, o) ==
      Deduplicated(s.(buffers := s.buffers - {p}, handles := s.handles - {fd}), fd, p, FinalHash(H, s, p),
                   Lookup(s.meta.files, s.handles[fd].hash, s.handles[fd].ref), BufferOwner(s, p), o)
  {
  }

  class OptiFS {
    const H: Hasher
    const store: MetadataStore
    var kernel: FS
    var hashHashMap: map<Path, WriteStore>
    var handles: map<nat, Handle>

    ghost function State(): Sys
      reads this, store
    {
      Sys(store.view, kernel, hashHashMap, handles)
    }

    ghost function ValueOf(m: MapEntryMetadata?): Option<Meta>
      reads m
    {
      if m == null then None else Some(m.Value())
    }

    ghost predicate Valid()
      reads store, store.entries, store.records, store.infos, store.heap
    {
      store.Valid()
    }

    constructor (H: Hasher)
      ensures Valid() && State() == INIT && this.H == H
    {
      this.H := H;
      store := new MetadataStore();
      kernel, hashHashMap, handles := INIT.fs, map[], map[];
    }

    // ---------- Write ----------

    method Remember(p: Path, data: Bytes, caller: Option<Owner>)
      modifies `hashHashMap
      ensures hashHashMap == Buffered(H, old(State()), p, data, caller)
    {
      var digest := H(data);
      if p in hashHashMap {
        var entry := hashHashMap[p];
        if entry.buffer.None? {
          hashHashMap := hashHashMap[p := entry.(buffer := Some(digest))];
        } else {
          hashHashMap := hashHashMap[p := entry.(buffer := Some(entry.buffer.value + digest))];
        }
      } else if caller.None? {
        hashHashMap := hashHashMap[p := WriteStore(Some(digest), 65534, 65534)];
      } else {
        hashHashMap := hashHashMap[p := WriteStore(Some(digest), caller.value.uid, caller.value.gid)];
      }
    }

    method Write(fd: nat, p: Path, data: Bytes, off: nat, caller: Option<Owner>, written: Option<nat>, now: Timespec)
      returns (reply: Reply)
      requires Valid()
      modifies this, store, store.records
      ensures Valid() && Res(State(), reply) == Session.Write(H, old(State()), fd, p, data, off, caller, written, now)
    {
      hide EntriesIn, WF, FilesWF, Names;
      if fd !in handles {
        return Err(EBADFD);
      }
      var err, fileMetadata := store.LookupRegularFileMetadata(handles[fd].hash, handles[fd].ref);
      Remember(p, data, caller);
      if written.None? || written.value > |data| {
        return Err(Kernel);
      }
      var out := Pwrite(kernel, fd, off, data[..written.value]);
      if out.None? {
        return Err(Kernel);
      }
      kernel := out.value;
      store.Stamp(fileMetadata, FileLoc(handles[fd].hash, handles[fd].ref), None, Some(now), None);
      return Err(OK);
    }

    // ---------- Read and Opendir ----------

    /** The record is looked up by the key in the handle, whatever file has that key by now. */
    method Read(fd: nat, now: Timespec) returns (reply: Reply)
      requires Valid()
      modifies store`view, store.records
      ensures Valid() && Res(State(), reply) == Session.Read(old(State()), fd, now)
    {
      if fd !in handles {
        return Err(EBADFD);
      }
      var f := handles[fd];
      var err, fileMetadata := store.LookupRegularFileMetadata(f.hash, f.ref);
      store.Stamp(fileMetadata, FileLoc(f.hash, f.ref), Some(now), None, None);
      return Err(OK);
    }

    method Opendir(p: Path, ok: bool, now: Timespec) returns (reply: Reply)
      requires Valid()
      modifies store`view, store.records
      ensures Valid() && Res(State(), reply) == OpenDir(old(State()), p, ok, now)
    {
      var err, dirMetadata := store.LookupDirMetadata(p);
      if !ok || p !in kernel.folders {
        return Err(Kernel);
      }
      store.Stamp(dirMetadata, DirLoc(p), Some(now), None, None);
      return Err(OK);
    }

    // ---------- Release ----------

    /** Drop the pending buffer, having computed the final hash from it. */
    method TakeHash(p: Path) returns (newHash: Hash, owner: Owner)
      modifies `hashHashMap
      ensures newHash == FinalHash(H, old(State()), p) && owner == BufferOwner(old(State()), p)
      ensures hashHashMap == old(hashHashMap) - {p}
    {
      newHash, owner := Zeros(64), Owner(0, 0);
      if p in hashHashMap {
        var w := hashHashMap[p];
        if w.buffer.Some? {
          newHash := H(w.buffer.value);
        }
        owner := Owner(w.uid, w.gid);
      }
      hashHashMap := hashHashMap - {p};
    }

    /** Find or make the entry. */
    method FindEntry(h: Hash) returns (isUnique: bool, entry: MapEntry)
      requires Valid()
      modifies store`regularFileMetadataHash, store`entries, store`view
      ensures Valid() && isUnique == IsUnique(old(store.view).files, h)
      ensures store.view == old(store.view).(files := CreateEntry(old(store.view).files, h))
      ensures store.Listed(entry) && entry.hash == h
      ensures entry in old(store.EntryOf(h)) || fresh(entry)
    {
      hide WF, FilesWF;
      isUnique := store.IsContentHashUnique(h);
      if isUnique {
        var _ := store.CreateRegularFileMapEntry(h);
      }
      var err, found := store.LookupRegularFileEntry(h);
      entry := found;
    }

    lemma Scans(e: MapEntry)
      requires Valid() && store.Listed(e) && StopsEarly(store.view.files[e.hash])
      ensures e.indexCounter == 0 || exists r :: r in e.entryList && r <= e.indexCounter
    {
      var v := store.view.files[e.hash];
      assert e.Ties(v);
      if v.counter != 0 {
        var r :| r in v.list && r <= v.counter;
        assert r in e.entryList;
      }
    }

    /** Note the newest record of the entry and add a default one. */
    method TakeReference(entry: MapEntry) returns (rec: MapEntryMetadata?, ref: nat, m: MapEntryMetadata)
      requires Valid() && store.Listed(entry) && StopsEarly(store.view.files[entry.hash])
      modifies entry, store`records, store`view
      ensures Valid() && ref == NextRef(old(store.view).files[entry.hash])
        && store.view == Added(old(store.view), entry.hash)
      ensures fresh(m) && store.records == old(store.records) + {m} && m.home == FileLoc(entry.hash, ref)
        && store.Attached(m)
      ensures ValueOf(rec) == Recent(old(store.view).files[entry.hash]) && (rec != null ==> rec in store.records)
    {
      Scans(entry);
      rec := store.RetrieveRecent(entry);
      ref, m := store.CreateRegularFileMetadata(entry);
    }

    method FillUnique(m: MapEntryMetadata, st: Stat, stable: StableAttr, p: Path, was: MapEntryMetadata?, owner: Owner,
                      now: Timespec)
      requires Valid() && m in store.records && store.Attached(m) && (was != null ==> was in store.records)
      modifies m, store`view, store`heap
      ensures Valid()
      ensures store.view == Session.FillUnique(old(store.view), m.home, st, stable, p, old(ValueOf(was)), owner, now)
    {
      hide Live;
      if was != null {
        store.MigrateRegularFileMetadata(was, m, st);
      } else {
        FillNew(m, st, stable, p, owner);
      }
      store.Stamp(m, m.home, None, Some(now), Some(now));
    }

    method FillNew(m: MapEntryMetadata, st: Stat, stable: StableAttr, p: Path, owner: Owner)
      requires Valid() && m in store.records && store.Attached(m)
      modifies m, store`view, store`heap
      ensures Valid()
      ensures store.view
           == Session.SetOwner(StoreModel.UpdateAllFromStat(old(store.view), m.home, st, stable, p), m.home, owner)
    {
      store.UpdateAllFromStat(m, st, stable, p);
      store.SetOwner(m, m.home, owner);
    }

    method ReleaseUnique(fd: nat, p: Path, m: MapEntryMetadata, was: MapEntryMetadata?, owner: Owner,
                         o: Env)
      returns (reply: Reply)
      requires Valid() && m in store.records && store.Attached(m) && (was != null ==> was in store.records)
      modifies `kernel, m, store`view, store`heap
      ensures Valid()
      ensures Res(State(), reply) == Session.ReleaseUnique(old(State()), fd, p, m.home, old(ValueOf(was)), owner, o)
    {
      if !o.fstatOk || fd !in kernel.fds {
        return Err(Kernel);
      }
      FillUnique(m, StatOf(kernel, kernel.fds[fd], o.st), o.stable, p, was, owner, o.now);
      kernel := Close(kernel, fd);
      return Err(OK);
    }

    /** The old record's fields are copied into the new record, which is then removed. */
    method MigrateAndRemove(h: Hash, ref: nat, m: MapEntryMetadata, was: MapEntryMetadata, st: Stat)
      requires Valid() && m in store.records && was in store.records && m.home == FileLoc(h, ref) && store.Attached(m)
      requires h != ZERO && ref != 0
      modifies m, store`regularFileMetadataHash, store`view, store.EntryOf(h)
      ensures Valid() && store.view == Removed(old(store.view), h, ref) && !Live(store.view.files, h, ref)
    {
      ghost var files := store.view.files;
      store.MigrateDuplicateFileMetadata(was, m, st);
      ghost var x := MigrateDuplicate(old(was.Value()), old(m.Value()), st);
      assert store.view.files == Fill(files, h, ref, x);
      FillThenRemove(files, h, ref, x);
      var _ := store.RemoveRegularFileMetadata(h, ref);
    }

    /** The time that is set at the end goes to an object no map leads to. */
    method DiscardMigrated(h: Hash, ref: nat, m: MapEntryMetadata, was: MapEntryMetadata, st: Stat, now: Timespec)
      requires Valid() && m in store.records && was in store.records && m.home == FileLoc(h, ref) && store.Attached(m)
      requires h != ZERO && ref != 0
      modifies m, store`regularFileMetadataHash, store`view, store.EntryOf(h)
      ensures Valid() && store.view == Removed(old(store.view), h, ref)
    {
      MigrateAndRemove(h, ref, m, was, st);
      store.FoundAt(FileLoc(h, ref));
      store.UpdateTime(m, None, Some(now), Some(now));
    }

    /** unlink() of a scratch name. */
    method RemoveScratch(name: Path, ok: bool)
      modifies `kernel
      ensures kernel == Scratch(old(kernel), name, ok)
    {
      var out := Underlying.Unlink(kernel, name);
      if ok && out.Some? {
        kernel := out.value;
      }
    }

    method FillDuplicate(m: MapEntryMetadata, spare: Stat, link: Stat, p: Path, owner: Owner, now: Timespec)
      requires Valid() && m in store.records && store.Attached(m)
      modifies m, store`view, store`heap
      ensures Valid() && store.view == Session.FillDuplicate(old(store.view), m.home, spare, link, p, owner, now)
    {
      store.FoundAt(m.home);
      store.InitialiseNewDuplicateFileMetadata(m, spare, link, p, owner.uid, owner.gid);
      store.Stamp(m, m.home, None, Some(now), Some(now));
    }

    /** Make a spare file, copy what lstat says of it, and remove it again. */
    method StatSpare(p: Path, o: Env) returns (spare: Option<Stat>)
      modifies `kernel
      ensures var made := OpenCreate(old(kernel), SparePath(p), o.spareFd, o.spareIno);
        if !o.spareOk || made.None? then spare == None && kernel == old(kernel)
        else
          var fs1 := Close(made.value, o.spareFd);
          && kernel == Scratch(fs1, SparePath(p), o.spareUnlinkOk)
          && spare == if !o.spareStatOk || SparePath(p) !in fs1.dir then None
                      else Some(StatOf(fs1, fs1.dir[SparePath(p)], o.spareSt))
    {
      var made := OpenCreate(kernel, SparePath(p), o.spareFd, o.spareIno);
      if !o.spareOk || made.None? {
        return None;
      }
      kernel := Close(made.value, o.spareFd);
      spare := None;
      if o.spareStatOk && SparePath(p) in kernel.dir {
        spare := Some(StatOf(kernel, kernel.dir[SparePath(p)], o.spareSt));
      }
      RemoveScratch(SparePath(p), o.spareUnlinkOk);
    }

    method FinishDuplicate(p: Path, h: Hash, ref: nat, m: MapEntryMetadata, st: Stat, was: MapEntryMetadata?,
                           owner: Owner, o: Env)
      returns (reply: Reply)
      requires Valid() && m in store.records && m.home == FileLoc(h, ref) && store.Attached(m)
      requires (was != null ==> was in store.records) && h != ZERO && ref != 0
      modifies `kernel, m, store`regularFileMetadataHash, store`view, store`heap, store.EntryOf(h)
      ensures Valid()
      ensures Res(State(), reply) == Session.FinishDuplicate(old(State()), p, h, ref, st, old(ValueOf(was)), owner, o)
    {
      hide OpenCreate;
      if was != null {
        DiscardMigrated(h, ref, m, was, st, o.now);
        return Err(OK);
      }
      var spare := StatSpare(p, o);
      if spare.None? {
        return Err(Kernel);
      }
      FillDuplicate(m, spare.value, st, p, owner, o.now);
      return Err(OK);
    }

    /** Link the recorded copy to a temporary name, look at it, and rename it over the file. */
    method LinkOver(copy: Path, p: Path, o: Env) returns (e: Errno, st: Stat)
      modifies `kernel
      ensures LinkOutcome(old(kernel), copy, p, o, e, kernel, st)
    {
      var linked := Underlying.Link(kernel, copy, TmpPath(p));
      st := o.st;
      if !o.linkOk || linked.None? {
        return ENOLINK, st;
      }
      kernel := linked.value;
      if !o.lstatOk {
        RemoveScratch(TmpPath(p), o.tmpUnlinkOk);
        return ENOENT, st;
      }
      st := StatOf(kernel, kernel.dir[TmpPath(p)], o.st);
      var renamed := Underlying.Rename(kernel, TmpPath(p), p);
      if !o.renameOk || renamed.None? {
        RemoveScratch(TmpPath(p), o.tmpUnlinkOk);
        return EIO, st;
      }
      kernel := renamed.value;
      return OK, st;
    }

    /** Give the reference back and report e. */
    method GiveBack(h: Hash, ref: nat, e: Errno) returns (reply: Reply)
      requires Valid()
      modifies store`regularFileMetadataHash, store`view, store.EntryOf(h)
      ensures Valid() && Res(State(), reply) == Res(Forget(old(State()), h, ref), Err(e))
    {
      var _ := store.RemoveRegularFileMetadata(h, ref);
      return Err(e);
    }

    method ReleaseDuplicate(p: Path, h: Hash, ref: nat, rec: MapEntryMetadata?, m: MapEntryMetadata,
                            was: MapEntryMetadata?,
                            owner: Owner, o: Env) returns (reply: Reply)
      requires Valid() && m in store.records && m.home == FileLoc(h, ref) && store.Attached(m)
      requires (was != null ==> was in store.records) && h != ZERO && ref != 0
      modifies `kernel, m, store`regularFileMetadataHash, store`view, store`heap, store.EntryOf(h)
      ensures Valid()
      ensures Res(State(), reply)
           == Session.ReleaseDuplicate(old(State()), p, h, ref, old(ValueOf(rec)), old(ValueOf(was)), owner, o)
    {
      hide EntriesIn;
      if rec == null {
        reply := GiveBack(h, ref, ENOENT);
        return;
      }
      var e, st := LinkOver(rec.path, p, o);
      LinkedOver(old(State()), p, h, ref, rec.Value(), ValueOf(was), owner, o, e, kernel, st);
      if e != OK {
        reply := GiveBack(h, ref, e);
      } else {
        reply := FinishDuplicate(p, h, ref, m, st, was, owner, o);
      }
    }

    lemma ClaimIsAdded(v: Store, h: Hash)
      ensures h in CreateEntry(v.files, h) && NextRef(CreateEntry(v.files, h)[h]) == ClaimedRef(v.files, h)
      ensures Added(v.(files := CreateEntry(v.files, h)), h) == v.(files := Claim(v.files, h))
    {
    }

    /** An entry and a new record in it. */
    method ClaimReference(h: Hash)
      returns (isUnique: bool, rec: MapEntryMetadata?, ref: nat, m: MapEntryMetadata, ghost entry: MapEntry)
      requires Valid() && Scannable(store.view.files)
      modifies store`regularFileMetadataHash, store`entries, store`records, store`view, store.EntryOf(h)
      ensures Valid() && isUnique == IsUnique(old(store.view).files, h) && ref == ClaimedRef(old(store.view).files, h)
      ensures store.view == old(store.view).(files := Claim(old(store.view).files, h))
      ensures fresh(m) && store.records == old(store.records) + {m} && m.home == FileLoc(h, ref) && store.Attached(m)
      ensures store.EntryOf(h) == {entry} && (entry in old(store.EntryOf(h)) || fresh(entry))
      ensures ValueOf(rec) == Recent(CreateEntry(old(store.view).files, h)[h]) && (rec != null ==> rec in store.records)
    {
      hide EntriesIn;
      ClaimIsAdded(store.view, h);
      MadeEntryStopsEarly(store.view.files, h);
      var e;
      isUnique, e := FindEntry(h);
      rec, ref, m := TakeReference(e);
      entry := e;
    }

    /** A new record, and the path's key changed to it. */
    method ClaimKey(p: Path, h: Hash, ghost was: MapEntryMetadata?)
      returns (isUnique: bool, rec: MapEntryMetadata?, ref: nat, m: MapEntryMetadata, ghost entry: MapEntry)
      requires Valid() && Scannable(store.view.files) && (was != null ==> was in store.records)
      modifies store`regularFileMetadataHash, store`entries, store`records, store`view, store.EntryOf(h),
        store.InfoOf(p)
      ensures Valid() && isUnique == IsUnique(old(store.view).files, h) && ref == ClaimedRef(old(store.view).files, h)
      ensures store.view == Keyed(old(store.view), p, h)
      ensures m in store.records && fresh(m) && (was != null ==> was in store.records)
      ensures m.home == FileLoc(h, ref) && store.Attached(m)
      ensures ValueOf(rec) == Recent(CreateEntry(old(store.view).files, h)[h])
      ensures store.EntryOf(h) == {entry} && (entry in old(store.EntryOf(h)) || fresh(entry))
    {
      isUnique, rec, ref, m, entry := ClaimReference(h);
      store.SetNodeKey(p, h, ref, m, rec);
    }

    /** Content that is there already: the handle is closed before anything is linked. */
    method CloseAndLink(fd: nat, p: Path, h: Hash, ref: nat, rec: MapEntryMetadata?, m: MapEntryMetadata,
                        was: MapEntryMetadata?, owner: Owner, o: Env)
      returns (reply: Reply)
      requires Valid() && m in store.records && m.home == FileLoc(h, ref) && store.Attached(m)
      requires (was != null ==> was in store.records) && h != ZERO && ref != 0
      modifies `kernel, m, store`regularFileMetadataHash, store`view, store`heap, store.EntryOf(h)
      ensures Valid()
      ensures Res(State(), reply) == Session.ReleaseDuplicate(
        old(State()).(fs := Close(old(kernel), fd)), p, h, ref, old(ValueOf(rec)), old(ValueOf(was)), owner, o)
    {
      kernel := Close(kernel, fd);
      reply := ReleaseDuplicate(p, h, ref, rec, m, was, owner, o);
    }

    /** The two cases, once hash, owner and old record are known. */
    method Deduplicate(fd: nat, p: Path, h: Hash, was: MapEntryMetadata?, owner: Owner, o: Env) returns (reply: Reply)
      requires Valid() && Scannable(store.view.files) && ClaimedRef(store.view.files, h) != 0
      requires was != null ==> was in store.records
      modifies `kernel, store, store.EntryOf(h), store.InfoOf(p)
      ensures Valid() && Res(State(), reply) == Deduplicated(old(State()), fd, p, h, old(ValueOf(was)), owner, o)
    {
      hide EntriesIn;
      ghost var s := State();
      var isUnique, rec, newRef, fileMetadata, _ := ClaimKey(p, h, was);
      if isUnique {
        reply := ReleaseUnique(fd, p, fileMetadata, was, owner, o);
      } else {
        DuplicateCase(s, fd, p, h, old(ValueOf(was)), owner, o, State().(fs := Close(kernel, fd)), ValueOf(rec));
        reply := CloseAndLink(fd, p, h, newRef, rec, fileMetadata, was, owner, o);
      }
    }

    /** Release of a handle that was opened with write intent. */
    method ReleaseWritten(fd: nat, p: Path, o: Env) returns (reply: Reply)
      requires Valid() && Scannable(store.view.files) && fd in handles
      requires ClaimedRef(store.view.files, FinalHash(H, State(), p)) != 0
      modifies this, store, store.entries, store.infos
      ensures Valid() && Res(State(), reply) == Deduplicated(
        old(State()).(buffers := old(hashHashMap) - {p}, handles := old(handles) - {fd}), fd, p,
          FinalHash(H, old(State()), p),
        StoreModel.Lookup(old(store.view).files, old(handles)[fd].hash, old(handles)[fd].ref),
          BufferOwner(old(State()), p), o)
    {
      hide Deduplicated, ClaimedRef, Scannable;
      var f := handles[fd];
      handles := handles - {fd};
      var newHash, owner := TakeHash(p);
      var err1, oldMetadata := store.LookupRegularFileMetadata(f.hash, f.ref);
      reply := Deduplicate(fd, p, newHash, oldMetadata, owner, o);
    }

    method Release(fd: nat, p: Path, o: Env) returns (reply: Reply)
      requires Valid() && Scannable(store.view.files)
      requires ClaimedRef(store.view.files, FinalHash(H, State(), p)) != 0
      modifies this, store, store.entries, store.infos
      ensures Valid() && Res(State(), reply) == Session.Release(H, old(State()), fd, p, o)
    {
      if fd !in handles {
        return Err(EBADFD);
      }
      if !handles[fd].writing {
        kernel, handles := Close(kernel, fd), handles - {fd};
        return Err(OK);
      }
      ReleaseIsDeduplicated(H, State(), fd, p, o);
      reply := ReleaseWritten(fd, p, o);
    }

    // ---------- HandleNodeInstantiation, Create, Open, Lookup ----------

    method InstantiateDir(p: Path, st: Stat, stable: StableAttr) returns (ghost m: MapEntryMetadata)
      requires Valid()
      modifies store
      ensures Valid()
      ensures store.view == StoreModel.UpdateAllFromStat(
        StoreModel.CreateDirEntry(StoreDir(old(store.view), p, stable, st.mode), p), DirLoc(p), st, stable, p)
      ensures fresh(m) && store.records == old(store.records) + {m}
    {
      store.StoreDirInfo(p, stable, st.mode);
      var made := store.CreateDirEntry(p);
      m := made;
      var _ := store.UpdateDirEntry(p, st, stable);
    }

    method InstantiateNew(p: Path, st: Stat, isDir: bool,
                          stable: StableAttr)
      returns (ghost made: set<MapEntryMetadata>)
      requires Valid()
      modifies store
      ensures Valid()
      ensures store.view == if isDir
                            then StoreModel.UpdateAllFromStat(
                              StoreModel.CreateDirEntry(StoreDir(old(store.view), p, stable, st.mode), p), DirLoc(p),
                                st, stable, p)
                            else StoreReg(old(store.view), p, stable, st.mode, ZERO, 0)
      ensures fresh(made) && store.records == old(store.records) + made && (!isDir ==> made == {})
    {
      made := {};
      if isDir {
        ghost var m := InstantiateDir(p, st, stable);
        made := {m};
      } else {
        store.StoreRegFileInfo(p, stable, st.mode, ZERO, 0);
      }
    }

    method HandleNodeInstantiation(p: Path, st: Stat, isDir: bool)
      returns (reply: Reply, stable: StableAttr, hash: Hash, ref: nat, ghost made: set<MapEntryMetadata>)
      requires Valid()
      modifies store
      ensures Valid() && Node(store.view, reply, stable, hash, ref) == Instantiate(H, old(store.view), p, st, isDir)
      ensures fresh(made) && store.records == old(store.records) + made && (!isDir ==> made == {})
    {
      hide WF, FilesWF, Respond;
      made := {};
      var err, info := store.RetrieveNodeInfo(p);
      if info.None? || (info.value.ref == 0 && info.value.hash == ZERO && !isDir) {
        stable := NewStable(H, p, st);
        made := InstantiateNew(p, st, isDir, stable);
        return Err(OK), stable, ZERO, 0, made;
      }
      stable, hash, ref := info.value.stable, info.value.hash, info.value.ref;
      if info.value.isDir {
        var derr, dirMetadata := store.LookupDirMetadata(p);
        return Err(derr), stable, ZERO, 0, made;
      }
      var ferr, fileMetadata := store.LookupRegularFileMetadata(hash, ref);
      // FillAttr dereferences whatever was found
      reply := if fileMetadata == null then Panic else Err(OK);
    }

    method CreateNode(parent: Path, p: Path, fd: nat, writing: bool, x: Stat, now: Timespec) returns (reply: Reply)
      requires Valid() && fd in kernel.fds
      modifies this, store, store.records
      ensures Valid() && Res(State(), reply) == Session.CreateNode(H, old(State()), parent, p, fd, writing, x, now)
    {
      ghost var n := Instantiate(H, store.view, p, StatOf(kernel, kernel.fds[fd], x), false);
      CreateNodeIs(H, State(), parent, p, fd, writing, x, now, n);
      var stable, hash, ref;
      ghost var made;
      reply, stable, hash, ref, made := HandleNodeInstantiation(p, StatOf(kernel, kernel.fds[fd], x), false);
      if !reply.Panic? {
        OpenCreated(parent, p, fd, writing, hash, ref, now);
      }
    }

    method OpenCreated(parent: Path, p: Path, fd: nat, writing: bool, hash: Hash, ref: nat, now: Timespec)
      requires Valid()
      modifies `handles, store`view, store.records
      ensures Valid() && store.view == TouchDir(old(store.view), parent, now)
      ensures handles == old(handles)[fd := Handle(p, writing, hash, ref)]
    {
      handles := handles[fd := Handle(p, writing, hash, ref)];
      Touch(parent, now);
    }

    method Create(parent: Path, p: Path, fd: nat, ino: nat, writing: bool, trunc: bool, caller: Option<Owner>, x: Stat,
                  openOk: bool, fstatOk: bool, now: Timespec)
      returns (reply: Reply)
      requires Valid()
      modifies this, store, store.records
      ensures Valid()
      ensures Res(State(), reply)
           == Session.Create(H, old(State()), parent, p, fd, ino, writing, trunc, caller, x, openOk, fstatOk, now)
    {
      var made := CreateOrOpen(kernel, p, fd, ino, trunc);
      if p !in hashHashMap && caller.Some? {
        hashHashMap := hashHashMap[p := WriteStore(None, caller.value.uid, caller.value.gid)];
      }
      if !openOk || made.None? {
        return Err(OK);
      }
      if !fstatOk {
        kernel := Close(made.value, fd);
        return Err(OK);
      }
      kernel := made.value;
      reply := CreateNode(parent, p, fd, writing, x, now);
    }

    method Open(p: Path, fd: nat, writing: bool, trunc: bool, ok: bool) returns (reply: Reply)
      requires Valid()
      modifies this
      ensures Valid() && Res(State(), reply) == OpenFile(old(State()), p, fd, writing, trunc, ok)
    {
      var err, info := store.RetrieveNodeInfo(p);
      var out := Underlying.Open(kernel, p, fd, trunc);
      if !ok || out.None? {
        return Err(Kernel);
      }
      kernel := out.value;
      handles := handles[fd := if info.Some? then Handle(p, writing, info.value.hash, info.value.ref)
                               else Handle(p, writing, ZERO, 0)];
      return Err(OK);
    }

    method Lookup(p: Path, x: Stat) returns (reply: Reply)
      requires Valid()
      modifies store, store.records
      ensures Valid() && Res(State(), reply) == LookupPath(H, old(State()), p, x)
    {
      if p !in kernel.dir && p !in kernel.folders {
        return Err(Kernel);
      }
      var stable, hash, ref;
      ghost var made;
      reply, stable, hash, ref, made := HandleNodeInstantiation(p, LstatOf(kernel, p, x), p in kernel.folders);
    }

    // ---------- Unlink, Rename, Link, Mkdir, Rmdir ----------

    /** The code looks the parent's record up on entry, for its permission bits; nothing in between replaces it. */
    method Touch(dir: Path, now: Timespec)
      requires Valid()
      modifies store`view, store.records
      ensures Valid() && store.view == TouchDir(old(store.view), dir, now)
    {
      var err, dirMetadata := store.LookupDirMetadata(dir);
      store.Stamp(dirMetadata, DirLoc(dir), None, Some(now), Some(now));
    }

    method ForgetPath(p: Path)
      requires Valid()
      modifies store, store.entries
      ensures Valid() && store.view == DropPath(old(store.view), p) && store.records == old(store.records)
    {
      var err, info := store.RetrieveNodeInfo(p);
      if err == OK {
        var _ := store.RemoveRegularFileMetadata(info.value.hash, info.value.ref);
        store.RemoveNodeInfo(p);
      }
    }

    method Unlink(parent: Path, p: Path, ok: bool, now: Timespec) returns (reply: Reply)
      requires Valid()
      modifies this, store, store.entries, store.records
      ensures Valid() && Res(State(), reply) == Session.Unlink(old(State()), parent, p, ok, now)
    {
      var out := Underlying.Unlink(kernel, p);
      if !ok || out.None? {
        return Err(Kernel);
      }
      kernel := out.value;
      ForgetPath(p);
      Touch(parent, now);
      return Err(OK);
    }

    method Rmdir(parent: Path, p: Path, ok: bool, now: Timespec) returns (reply: Reply)
      requires Valid()
      modifies this, store, store.records
      ensures Valid() && Res(State(), reply) == RemoveDir(old(State()), parent, p, ok, now)
    {
      var out := Underlying.Rmdir(kernel, p);
      if !ok || out.None? {
        return Err(Kernel);
      }
      kernel := out.value;
      store.RemoveDirEntry(p);
      store.RemoveNodeInfo(p);
      Touch(parent, now);
      return Err(OK);
    }

    method HandleHardlinkInstantiation(a: Path, b: Path, mode: nat) returns (err: Errno)
      requires Valid()
      modifies store`nodePersistenceHash, store`infos, store`view
      ensures Valid()
      ensures err == (if a !in old(store.view).nodes then ENOENT else if b in old(store.view).nodes then EEXIST else OK)
      ensures store.view == if err != OK then old(store.view)
                            else
                              var info := old(store.view).nodes[a];
                              StoreReg(old(store.view), b, info.stable, mode, info.hash, info.ref)
    {
      var aerr, source := store.RetrieveNodeInfo(a);
      if aerr != OK {
        return ENOENT;
      }
      var berr, target := store.RetrieveNodeInfo(b);
      if berr == OK {
        return EEXIST;
      }
      store.StoreRegFileInfo(b, source.value.stable, mode, source.value.hash, source.value.ref);
      return OK;
    }

    method Link(parent: Path, a: Path, b: Path, mode: nat, ok: bool, statOk: bool, now: Timespec) returns (reply: Reply)
      requires Valid()
      modifies this, store, store.records
      ensures Valid() && Res(State(), reply) == HardLink(old(State()), parent, a, b, mode, ok, statOk, now)
    {
      hide WF, FilesWF;
      var out := Underlying.Link(kernel, a, b);
      if !ok || out.None? {
        return Err(Kernel);
      }
      kernel := out.value;
      if !statOk {
        RemoveScratch(b, true);
        return Err(OK);
      }
      var err := HandleHardlinkInstantiation(a, b, mode);
      if err != OK {
        RemoveScratch(b, true);
        return Err(err);
      }
      Touch(parent, now);
      return Err(OK);
    }

    method Mkdir(p: Path, caller: Option<Owner>, st: Stat, ok: bool, statOk: bool) returns (reply: Reply)
      requires Valid()
      modifies this, store, store.records
      ensures Valid() && Res(State(), reply) == MakeDir(H, old(State()), p, caller, st, ok, statOk)
    {
      var out := Underlying.Mkdir(kernel, p);
      if !ok || out.None? {
        return Err(Kernel);
      }
      if !statOk {
        kernel := out.value;
        return Err(Kernel);
      }
      MakeDirIs(H, State(), p, caller, st, Instantiate(H, store.view, p, st, true));
      kernel := out.value;
      reply := MakeNode(p, caller, st);
    }

    method MakeNode(p: Path, caller: Option<Owner>, st: Stat) returns (reply: Reply)
      requires Valid()
      modifies store, store.records
      ensures Valid()
      ensures var n := Instantiate(H, old(store.view), p, st, true);
        if n.reply != Err(OK) then store.view == n.meta && reply == Panic
        else
          store.view == DirOwned(n.meta, p, caller, st, n.stable)
          && reply == if p in n.meta.dirs then Err(OK) else Err(ENODATA)
    {
      var r, stable, hash, ref, _ := HandleNodeInstantiation(p, st, true);
      if r != Err(OK) {
        return Panic;
      }
      store.FoundAt(DirLoc(p));
      reply := FinishMkdir(p, caller, st, stable);
    }

    method FinishMkdir(p: Path, caller: Option<Owner>, st: Stat, stable: StableAttr) returns (reply: Reply)
      requires Valid()
      modifies store, store.RecordsAt(DirLoc(p))
      ensures Valid()
      ensures store.view == DirOwned(old(store.view), p, caller, st, stable)
      ensures reply == if p in old(store.view).dirs then Err(OK) else Err(ENODATA)
    {
      var err := store.UpdateDirEntry(p, st, stable);
      if err != OK {
        return Err(err);
      }
      var lerr, dirMetadata := store.LookupDirMetadata(p);
      if caller.Some? {
        store.SetOwner(dirMetadata, DirLoc(p), caller.value);
      }
      return Err(OK);
    }

    /** The map updates of a rename the kernel has carried out; false when a directory had no record to move. */
    method RekeyPath(a: Path, b: Path, info: NodeInfo) returns (moved: bool, ghost made: set<MapEntryMetadata>)
      requires Valid() && a in store.view.nodes && info == store.view.nodes[a]
      modifies store
      ensures Valid() && store.view == Rekey(old(store.view), a, b)
      ensures moved == (info.isDir ==> a in old(store.view).dirs)
      ensures fresh(made) && store.records == old(store.records) + made
    {
      store.RemoveNodeInfo(a);
      if !info.isDir {
        store.StoreRegFileInfo(b, info.stable, info.mode, info.hash, info.ref);
        return true, {};
      }
      store.StoreDirInfo(b, info.stable, info.mode);
      moved, made := MoveDirRecord(a, b);
    }

    method MoveDirRecord(a: Path, b: Path) returns (moved: bool, ghost made: set<MapEntryMetadata>)
      requires Valid()
      modifies store
      ensures Valid() && moved == (a in old(store.view).dirs)
      ensures store.view == if !moved then old(store.view) else DirRecordMoved(old(store.view), a, b)
      ensures fresh(made) && store.records == old(store.records) + made
    {
      hide WF, FilesWF;
      var err, was := store.LookupDirMetadata(a);
      if err != OK {
        return false, {};
      }
      ghost var copy := CopyUnder(b, was);
      store.RemoveDirEntry(a);
      return true, {copy};
    }

    method CopyUnder(b: Path, was: MapEntryMetadata) returns (ghost m: MapEntryMetadata)
      requires Valid() && was in store.records
      modifies store`dirMetadataHash, store`records, store`heap, store`view
      ensures Valid() && fresh(m) && store.records == old(store.records) + {m}
      ensures store.view == CreateDirEntry(old(store.view), b).(dirs := old(store.view).dirs[b := old(was.Value())])
    {
      ghost var v := store.view;
      var copy := store.CreateDirEntry(b);
      m := copy;
      PutOverNew(v, b, was.Value());
      store.CopyRecord(was, copy);
    }

    method RenameInKernel(parentA: Path, a: Path, parentB: Path, b: Path, isDir: bool, exchange: bool, ok: bool)
      returns (e: Errno)
      modifies `kernel
      ensures e == RenameError(old(kernel), parentA, a, parentB, b, isDir, exchange, ok)
      ensures kernel == if e == OK then Renamed(old(kernel), a, b, isDir, exchange).value else old(kernel)
    {
      var out;
      if exchange {
        if parentA != ROOT || parentB != ROOT {
          return EBUSY;
        }
        out := Exchange(kernel, a, b);
      } else if isDir {
        out := RenameFolder(kernel, a, b);
      } else {
        out := Underlying.Rename(kernel, a, b);
      }
      if !ok || out.None? {
        return Kernel;
      }
      kernel := out.value;
      return OK;
    }

    method TouchBoth(parentA: Path, parentB: Path, now: Timespec)
      requires Valid()
      modifies store`view, store.records
      ensures Valid() && store.view == TouchDir(TouchDir(old(store.view), parentA, now), parentB, now)
    {
      Touch(parentA, now);
      Touch(parentB, now);
    }

    /** A missing directory record ends the operation before the parents' times are touched. */
    method UpdateMaps(a: Path, b: Path, info: NodeInfo, parentA: Path, parentB: Path, now: Timespec)
      requires Valid() && a in store.view.nodes && info == store.view.nodes[a]
      modifies store, store.records
      ensures Valid()
      ensures store.view == MapsRenamed(old(store.view), parentA, a, parentB, b, now)
    {
      var moved, _ := RekeyPath(a, b, info);
      if moved {
        TouchBoth(parentA, parentB, now);
      }
    }

    method Rename(parentA: Path, a: Path, parentB: Path, b: Path, exchange: bool, ok: bool, now: Timespec)
      returns (reply: Reply)
      requires Valid()
      modifies this, store, store.records
      ensures Valid() && Res(State(), reply) == RenamePath(old(State()), parentA, a, parentB, b, exchange, ok, now)
    {
      hide MetaAt, RenamePath, MapsRenamed, Renamed, RenameError, TouchDir, EntriesIn;
      var err, info := store.RetrieveNodeInfo(a);
      if err != OK {
        RenamePathOfNothing(State(), parentA, a, parentB, b, exchange, ok, now);
        return Err(ENOENT);
      }
      RenamePathIs(State(), parentA, a, parentB, b, exchange, ok, now);
      var e := RenameInKernel(parentA, a, parentB, b, info.value.isDir, exchange, ok);
      if e == OK {
        UpdateMaps(a, b, info.value, parentA, parentB, now);
      } else {
        TouchBoth(parentA, parentB, now);
      }
      return Err(e);
    }

    // ---------- attributes ----------

    /** The record behind a path, if the path is known and its key leads to one. */
    method RecordOf(p: Path) returns (m: MapEntryMetadata?)
      requires Valid()
      ensures ValueOf(m) == MetaOf(store.view, p)
      ensures m != null ==> m in store.records && LocOf(store.view, p) == Some(m.home) && store.Attached(m)
    {
      var err, info := store.RetrieveNodeInfo(p);
      if err != OK {
        return null;
      }
      if info.value.isDir {
        err, m := store.LookupDirMetadata(p);
      } else {
        err, m := store.LookupRegularFileMetadata(info.value.hash, info.value.ref);
      }
    }

    /** `f` is the descriptor of the open handle the request came with, if any. */
    method Getattr(p: Path, f: Option<nat>, x: Stat) returns (out: Option<Attr>)
      requires Valid()
      ensures out == Session.Getattr(State(), p, f, x)
    {
      var m := RecordOf(p);
      if m != null {
        var attr := m.FillAttr();
        return Some(attr);
      }
      if f.None? {
        if p in kernel.dir || p in kernel.folders {
          return Some(StatAttr(LstatOf(kernel, p, x)));
        }
        return None;
      }
      if f.value in kernel.fds {
        return Some(StatAttr(StatOf(kernel, kernel.fds[f.value], x)));
      }
      return None;
    }

    /** The custom-metadata branch of SetAttributes: one field after another, with an early exit. */
    static method SetAttributes(m: MapEntryMetadata, i: SetAttrIn, wantsOut: bool, now: Timespec) returns (e: Errno)
      modifies m
      ensures (m.Value(), e) == Session.SetAttributes(old(m.Value()), i, wantsOut, now) && m.xattr == old(m.xattr)
    {
      m.UpdateMode(i.mode);
      if (i.uid.Some? || i.gid.Some?) && !i.ownerKnown {
        return EINVAL;
      }
      m.UpdateOwner(i.uid, i.gid);
      if i.mtime.Some? || i.atime.Some? {
        m.UpdateTime(Some(UtimeToTimespec(i.atime)), Some(UtimeToTimespec(i.mtime)), Some(UtimeToTimespec(i.ctime)));
      }
      m.UpdateSize(i.size);
      if !wantsOut {
        m.UpdateTime(None, None, Some(now));
      }
      return OK;
    }

    method Setattr(p: Path, i: SetAttrIn, wantsOut: bool, now: Timespec) returns (reply: Reply)
      requires Valid()
      modifies store`view, store.records
      ensures Valid() && Res(State(), reply) == Session.Setattr(old(State()), p, i, wantsOut, now)
    {
      var m := RecordOf(p);
      if m == null {
        return Err(OK);
      }
      var e := ChangeAttributes(m, i, wantsOut, now);
      return Err(e);
    }

    method ChangeAttributes(m: MapEntryMetadata, i: SetAttrIn, wantsOut: bool, now: Timespec) returns (e: Errno)
      requires Valid() && m in store.records
      modifies m, store`view
      ensures Valid() && store.view == old(store.Assigned(m, Session.SetAttributes(m.Value(), i, wantsOut, now).0))
      ensures e == Session.SetAttributes(old(m.Value()), i, wantsOut, now).1
    {
      e := SetAttributes(m, i, wantsOut, now);
      store.CatchUp(m);
    }

    method Setxattr(p: Path, attr: Bytes, data: Bytes, flags: nat) returns (reply: Reply)
      requires Valid()
      modifies store`view, store.heap
      ensures Valid() && Res(State(), reply) == Session.Setxattr(old(State()), p, attr, data, flags)
    {
      hide RecordsIn;
      if p == ROOT {
        return Err(OK);
      }
      var m := RecordOf(p);
      store.PointsIntoHeap(m);
      var e := store.SetCustomXAttr(m, attr, data, flags);
      return Err(e);
    }

    method Removexattr(p: Path, attr: Bytes) returns (reply: Reply)
      requires Valid()
      modifies store`view, store.heap
      ensures Valid() && Res(State(), reply) == Session.Removexattr(old(State()), p, attr)
    {
      hide MetaOf, RecordsIn;
      if p == ROOT {
        return Err(OK);
      }
      var m := RecordOf(p);
      store.PointsIntoHeap(m);
      var e := store.RemoveCustomXAttr(m, attr);
      return Err(e);
    }

    method Listxattr(p: Path, dest: array<byte>) returns (size: nat, err: Errno)
      requires Valid()
      modifies dest
      ensures if p == ROOT then err == OK && size == 0 && dest[..] == old(dest[..])
              else match XAttrMapOf(store.view, p)
                case None => err == ENODATA && size == 0 && dest[..] == old(dest[..])
                case Some(attrs) => exists names :: Increasing(names) && ElementsOf(names) == attrs.Keys
                                                    && Answer(names, old(dest[..]), dest[..], size, err)
    {
      if p == ROOT {
        return 0, OK;
      }
      var m := RecordOf(p);
      store.PointsIntoHeap(m);
      ghost var names;
      size, err, names := ListCustomXAttr(m, dest);
    }

    // ---------- restart ----------

    /** The process stops, with whatever files open, and the tree loses the names in `gone`; the saved maps are
        swept against what is left. */
    method Mount(gone: set<Path>)
      requires Valid() && FilesWF(store.view.files)
      modifies this, store, store.entries
      ensures Valid() && State() == Recover(old(State()), gone)
    {
      kernel := RestartWithout(kernel, gone);
      hashHashMap, handles := map[], map[];
      var _ := store.InsureIntegrity(kernel.dir.Keys + kernel.folders);
    }

    // ---------- one event at a time ----------

    predicate Attributes(e: Event) { e.ESetattr? || e.ESetxattr? || e.ERemovexattr? }

    method ServeAttributes(e: Event) returns (reply: Reply)
      requires Valid() && Attributes(e)
      modifies store, store.records, store.heap
      ensures Valid() && Res(State(), reply) == Respond(H, old(State()), e)
    {
      match e
      case ESetattr(p, i, wantsOut, now) => reply := Setattr(p, i, wantsOut, now);
      case ESetxattr(p, attr, data, flags) => reply := Setxattr(p, attr, data, flags);
      case ERemovexattr(p, attr) => reply := Removexattr(p, attr);
    }

    predicate Namespace(e: Event) {
      e.EUnlink? || e.ERename? || e.ELink? || e.EMkdir? || e.ERmdir? || e.ELookup? || e.EOpendir?
    }

    method ServeNamespace(e: Event) returns (reply: Reply)
      requires Valid() && Namespace(e)
      modifies this, store, store.records, store.entries
      ensures Valid() && Res(State(), reply) == Respond(H, old(State()), e)
    {
      hide CreateEntry, WF, FilesWF, TouchDir, Rekey;
      match e
      case EUnlink(parent, p, ok, now) => reply := Unlink(parent, p, ok, now);
      case ERename(parent, p, parentB, b, exchange, ok, now) =>
        reply := Rename(parent, p, parentB, b, exchange, ok, now);
      case ELink(parent, p, b, mode, ok, statOk, now) => reply := Link(parent, p, b, mode, ok, statOk, now);
      case EMkdir(p, caller, x, ok, statOk) => reply := Mkdir(p, caller, x, ok, statOk);
      case ERmdir(parent, p, ok, now) => reply := Rmdir(parent, p, ok, now);
      case ELookup(p, x) => reply := Lookup(p, x);
      case EOpendir(p, ok, now) => reply := Opendir(p, ok, now);
    }

    method ServeFiles(e: Event) returns (reply: Reply)
      requires Valid() && FilesWF(store.view.files) && !Attributes(e) && !Namespace(e)
      requires e.ERelease? ==> ClaimedRef(store.view.files, FinalHash(H, State(), e.p)) != 0
      modifies this, store, store.records, store.entries, store.infos
      ensures Valid() && Res(State(), reply) == Respond(H, old(State()), e)
    {
      WellFormedIsScannable(store.view.files);
      match e
      case ECreate(parent, p, fd, ino, writing, trunc, caller, x, openOk, fstatOk, now) =>
        reply := Create(parent, p, fd, ino, writing, trunc, caller, x, openOk, fstatOk, now);
      case EOpen(p, fd, writing, trunc, ok) => reply := Open(p, fd, writing, trunc, ok);
      case EWrite(fd, p, data, off, caller, written, now) => reply := Write(fd, p, data, off, caller, written, now);
      case ERead(fd, now) => reply := Read(fd, now);
      case ERelease(fd, p, o) => reply := Release(fd, p, o);
      case ERecover(gone) =>
        Mount(gone);
        reply := Err(OK);
    }

    method Serve(e: Event) returns (reply: Reply)
      requires Valid() && FilesWF(store.view.files)
      requires e.ERelease? ==> ClaimedRef(store.view.files, FinalHash(H, State(), e.p)) != 0
      modifies this, store, store.records, store.entries, store.infos, store.heap
      ensures Valid() && Res(State(), reply) == Respond(H, old(State()), e)
    {
      if Attributes(e) {
        reply := ServeAttributes(e);
      } else if Namespace(e) {
        reply := ServeNamespace(e);
      } else {
        reply := ServeFiles(e);
      }
    }
  }
}
