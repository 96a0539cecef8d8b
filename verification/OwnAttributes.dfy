/** Every released file has attributes of its own: what they are to begin with, that nothing done to other
    files changes them, and that what a user sets stays set. */
module OwnAttributes {
  import opened Basics
  import opened Fingerprints
  import opened StoreModel
  import opened Underlying
  import opened Session
  import opened SequentialRuns
  import opened DedupTree
  import opened WriteOnce
  import opened WriteOnceSteps
  import opened WriteOnceRelease
  import opened Transparency
  import opened Sharing
  import opened Ownership
  import opened Recovery
  import opened AttributeMaps
  import opened Uniqueness
  import opened AttributeCalls
  import opened StableInode
  import opened Readers

  /** p's record and the contents of its attribute map. */
  function Owned(s: Store, p: Path): (Option<Meta>, Option<XAttrs>) { (MetaOf(s, p), XAttrMapOf(s, p)) }

  /** The key of p, the record behind it and the map it points to are what they were. */
  ghost predicate KeptFor(s: Store, s': Store, p: Path)
    requires p in s.nodes
  {
    && Get(s'.nodes, p) == Get(s.nodes, p)
    && MetaAt(s', FileLoc(s.nodes[p].hash, s.nodes[p].ref)) == MetaAt(s, FileLoc(s.nodes[p].hash, s.nodes[p].ref))
    && forall x | x in s.xattrs && x < s.next :: Get(s'.xattrs, x) == Get(s.xattrs, x)
  }

  lemma KeptMeans(s: Sys, s': Store, p: Path)
    requires HasRecord(s, p) && !s.meta.nodes[p].isDir && XInv(s.meta) && KeptFor(s.meta, s', p)
    ensures Owned(s', p) == Owned(s.meta, p) && MetaOf(s.meta, p).Some? && XAttrMapOf(s.meta, p).Some?
  {
    var l := FileLoc(s.meta.nodes[p].hash, s.meta.nodes[p].ref);
    var x := XAt(s.meta, l).value;
    assert Get(s'.xattrs, x) == Get(s.meta.xattrs, x);
    assert Get(s'.nodes, p) == Some(s.meta.nodes[p]);
  }

  // ---------- no step on another file changes them ----------

  lemma InstantiateFileFrame(H: Hasher, s: Store, p: Path, st: Stat)
    ensures var s' := Instantiate(H, s, p, st, false).meta;
      s'.files == s.files && s'.xattrs == s.xattrs && forall q | q != p :: Get(s'.nodes, q) == Get(s.nodes, q)
  {
  }

  lemma CreateKeeps(H: Hasher, s: Sys, e: Event, p: Path)
    requires e.ECreate? && p in s.meta.nodes && e.p != p
    ensures KeptFor(s.meta, Step(H, s, e).meta, p)
  {
    var s1 := NoteCreator(s, e.p, e.caller);
    var got := CreateOrOpen(s.fs, e.p, e.fd, e.ino, e.trunc);
    if e.openOk && got.Some? && e.fstatOk {
      CreateNodeKeeps(H, s1.(fs := got.value), e.parent, e.p, e.fd, e.writing, e.x, e.now, p);
    }
  }

  lemma CreateNodeKeeps(H: Hasher, s: Sys, parent: Path, q: Path, fd: nat, writing: bool, x: Stat, now: Timespec,
                        p: Path)
    requires fd in s.fs.fds && p in s.meta.nodes && q != p
    ensures KeptFor(s.meta, CreateNode(H, s, parent, q, fd, writing, x, now).sys.meta, p)
  {
    var st := StatOf(s.fs, s.fs.fds[fd], x);
    InstantiateFileFrame(H, s.meta, q, st);
    TouchDirFrame(Instantiate(H, s.meta, q, st, false).meta, parent, now);
  }

  lemma MkdirKeeps(H: Hasher, s: Sys, e: Event, p: Path)
    requires e.EMkdir? && Unused(s.fs, e.p) && e.p !in s.meta.nodes && p in s.meta.nodes
    ensures KeptFor(s.meta, Step(H, s, e).meta, p)
  {
    if e.ok && Mkdir(s.fs, e.p).Some? {
      var info := MkdirShape(H, s, e.p, e.caller, e.x);
      MkdirHeap(H, s, e.p, e.caller, e.x);
    }
  }

  lemma MkdirHeap(H: Hasher, s: Sys, p: Path, caller: Option<Owner>, st: Stat)
    requires Mkdir(s.fs, p).Some? && p !in s.meta.nodes
    ensures MakeDir(H, s, p, caller, st, true, true).sys.meta.xattrs == s.meta.xattrs[s.meta.next := map[]]
  {
    var stable := NewStable(H, p, st);
    var s1 := CreateDirEntry(StoreDir(s.meta, p, stable, st.mode), p);
    var s2 := Put(s1, DirLoc(p), FromStat(s1.dirs[p], st, stable, p, s.meta.next));
    assert Instantiate(H, s.meta, p, st, true) == Node(s2, Err(OK), stable, ZERO, 0);
  }

  lemma RmdirKeeps(H: Hasher, s: Sys, e: Event, p: Path)
    requires e.ERmdir? && p in s.meta.nodes && p !in s.fs.folders
    ensures KeptFor(s.meta, Step(H, s, e).meta, p)
  {
    TouchDirFrame(RemoveNode(RemoveDirEntry(s.meta, e.p), e.p), e.parent, e.now);
  }

  lemma UnlinkKeeps(H: Hasher, s: Sys, k: Hist, e: Event, p: Path)
    requires AllRecorded(s, k) && FilesWF(s.meta.files) && e.EUnlink? && IsClosed(k, p) && p in s.meta.nodes
    requires e.ok && e.p in s.fs.dir ==>
      e.p != p && e.p in s.meta.nodes && (IsClosed(k, e.p) || s.meta.nodes[e.p].hash == ZERO)
    ensures KeptFor(s.meta, Step(H, s, e).meta, p)
  {
    hide FilesWF;
    TouchDirFrame(DropPath(s.meta, e.p), e.parent, e.now);
    if e.ok && e.p in s.fs.dir {
      if IsClosed(k, e.p) {
        KeysDiffer(s, k, e.p, p);
      }
      RemoveLive(s.meta.files, s.meta.nodes[e.p].hash, s.meta.nodes[e.p].ref, s.meta.nodes[p].hash,
                 s.meta.nodes[p].ref);
    }
  }

  lemma ReleaseKeepsFor(H: Hasher, s: Sys, k: Hist, e: Event, p: Path)
    requires Inv(H, s, k) && Allowed(H, s, k, e) && e.ERelease? && CollisionFree(H, Recorded(H, s, k, e).hashed)
    requires HasRecord(s, p) && p !in k.open
    ensures KeptFor(s.meta, Step(H, s, e).meta, p)
  {
    if s.handles[e.fd].writing {
      assert Get(k.open, e.p) == Some(e.fd);
      var dir, ending, q := ReleaseBranch(H, s, k, e.fd, e.p, e.o);
      ReleasedKeeps(s, k, Step(H, s, e), e.p, e.fd, FinalHash(H, s, e.p), e.o, dir, ending, q, p);
    }
  }

  lemma ReleasedKeeps(s: Sys, k: Hist, s': Sys, q: Path, fd: nat, h: Hash, o: Env, dir: map<Path, nat>, e: Ending,
                      source: Option<Path>, p: Path)
    requires FilesWF(s.meta.files) && Room(s.meta.files, h) && HasRecord(s, p) && p != q
    requires Released(s, s', q, fd, h, dir, e) && Branch(s, k, s', q, h, o, dir, e, source)
    ensures KeptFor(s.meta, s'.meta, p)
  {
    EndedKeeps(s.meta.files, h, e, s.meta.nodes[p].hash, s.meta.nodes[p].ref);
  }

  /** An attribute operation on q. */
  lemma AttributesKeep(H: Hasher, s: Sys, k: Hist, e: Event, p: Path)
    requires Full(H, s, k) && XInv(s.meta) && OnAttributes(e) && e.p != p && HasRecord(s, p) && !s.meta.nodes[p].isDir
    ensures Owned(Step(H, s, e).meta, p) == Owned(s.meta, p) && Step(H, s, e).meta.nodes == s.meta.nodes
  {
    hide Respond;
    FullApart(H, s, k, e.p, p);
    ApartKeeps(H, s, e, p);
    AttributeEvent(H, s, e);
  }

  lemma ApartKeeps(H: Hasher, s: Sys, e: Event, p: Path)
    requires XInv(s.meta) && OnAttributes(e) && Apart(s.meta, e.p, p) && MetaOf(s.meta, p).Some?
    ensures Owned(Step(H, s, e).meta, p) == Owned(s.meta, p)
  {
    ApartMeansIndependent(H, s, e, p);
    if e.ESetattr? && MetaOf(s.meta, e.p).Some? {
      PutElsewhere(s.meta, LocOf(s.meta, e.p).value, SetAttributes(MetaOf(s.meta, e.p).value, e.i, e.wantsOut, e.now).0,
                   LocOf(s.meta, p).value);
    }
  }

  /** A Read through a handle that holds p's key. */
  predicate ReadsRecord(s: Sys, e: Event, p: Path) {
    e.ERead? && e.fd in s.handles && LocOf(s.meta, p) == Some(FileLoc(s.handles[e.fd].hash, s.handles[e.fd].ref))
  }

  /** The exact condition, in any state: a Read leaves p's record as it was if and only if it does not go through
      a handle that holds p's key, or finds no record, or comes at the record's own access time. Otherwise it
      renews that time, whichever file the handle was opened on. */
  lemma ReadLeavesRecord(H: Hasher, s: Sys, e: Event, p: Path)
    requires e.ERead?
    ensures var was, now := MetaOf(s.meta, p), MetaOf(Step(H, s, e).meta, p);
      && (now == was <==> !ReadsRecord(s, e, p) || was.None? || was.value.atim == e.now)
      && (ReadsRecord(s, e, p) && was.Some? ==> now == Some(was.value.(atim := e.now)))
  {
    if e.fd in s.handles {
      var l := FileLoc(s.handles[e.fd].hash, s.handles[e.fd].ref);
      if MetaAt(s.meta, l).Some? {
        var m := WithTime(MetaAt(s.meta, l).value, Some(e.now), None, None);
        MetaAfterPut(s.meta, l, m);
        if LocOf(s.meta, p).Some? && LocOf(s.meta, p).value != l {
          PutElsewhere(s.meta, l, m, LocOf(s.meta, p).value);
        }
      }
    }
  }

  /** Reading a file through a handle that does not hold p's key, or opening a directory. */
  lemma AccessKeeps(H: Hasher, s: Sys, e: Event, p: Path)
    requires (e.ERead? && !ReadsRecord(s, e, p)) || e.EOpendir?
    requires p in s.meta.nodes && !s.meta.nodes[p].isDir
    ensures KeptFor(s.meta, Step(H, s, e).meta, p)
  {
    var l := FileLoc(s.meta.nodes[p].hash, s.meta.nodes[p].ref);
    if e.EOpendir? {
      if MetaAt(s.meta, DirLoc(e.p)).Some? {
        PutElsewhere(s.meta, DirLoc(e.p), WithTime(s.meta.dirs[e.p], Some(e.now), None, None), l);
      }
    } else if e.fd in s.handles {
      var at := FileLoc(s.handles[e.fd].hash, s.handles[e.fd].ref);
      if MetaAt(s.meta, at).Some? {
        PutElsewhere(s.meta, at, WithTime(MetaAt(s.meta, at).value, Some(e.now), None, None), l);
      }
    }
  }

  /** The same attributes, but for the access time. */
  predicate SameButAccess(s: Store, s': Store, p: Path) {
    && XAttrMapOf(s', p) == XAttrMapOf(s, p) && MetaOf(s, p).Some? && MetaOf(s', p).Some?
    && MetaOf(s', p).value.(atim := MetaOf(s, p).value.atim) == MetaOf(s, p).value
  }

  lemma ReadKeeps(H: Hasher, s: Sys, e: Event, p: Path)
    requires ReadsRecord(s, e, p) && MetaOf(s.meta, p).Some?
    ensures SameButAccess(s.meta, Step(H, s, e).meta, p) && Get(Step(H, s, e).meta.nodes, p) == Get(s.meta.nodes, p)
    ensures Owned(Step(H, s, e).meta, p) == Owned(s.meta, p) <==> MetaOf(s.meta, p).value.atim == e.now
  {
    ReadLeavesRecord(H, s, e, p);
    assert Step(H, s, e).meta.xattrs == s.meta.xattrs;
  }

  /** Not an attribute operation on p. */
  predicate Spares(e: Event, p: Path) { OnAttributes(e) ==> e.p != p }

  lemma LookupHeapEvent(H: Hasher, s: Sys, k: Hist, e: Event)
    requires Inv(H, s, k) && e.ELookup?
    ensures Step(H, s, e).meta.xattrs == s.meta.xattrs
  {
    LookupKeepsHeap(H, s, k, e.p, e.x);
  }

  lemma QuietKeeps(H: Hasher, s: Sys, k: Hist, e: Event, p: Path)
    requires Inv(H, s, k) && Allowed(H, s, k, e) && !Unreleased(k, p) && p in s.meta.nodes
    requires e.EOpen? || e.EWrite? || e.ELookup?
    ensures KeptFor(s.meta, Step(H, s, e).meta, p)
  {
    hide Respond;
    if e.EOpen? {
      OpenEvent(H, s, k, e);
    } else if e.EWrite? {
      WriteEvent(H, s, k, e);
    } else {
      var info := LookupEvent(H, s, k, e);
      LookupHeapEvent(H, s, k, e);
    }
  }

  lemma RecoverKeeps(H: Hasher, s: Sys, k: Hist, e: Event, p: Path)
    requires Full(H, s, k) && e.ERecover? && p in s.meta.nodes && p !in e.gone
    ensures Owned(Step(H, s, e).meta, p) == Owned(s.meta, p)
    ensures Get(Step(H, s, e).meta.nodes, p) == Get(s.meta.nodes, p)
  {
    var s' := Recover(s, e.gone);
    RecoverShape(H, s, k, e.gone);
    RecoveredRestricts(H, s, k, s', e.gone);
    SurvivorUntouched(H, s, k, s', e.gone, p);
  }

  /** A closed file that a step leaves in place stays closed, and keeps its key, its record and its attributes,
      except that a Read through a handle with its key renews its access time. */
  lemma StepKeepsOwned(H: Hasher, s: Sys, k: Hist, e: Event, p: Path)
    requires Full(H, s, k) && XInv(s.meta) && Allowed(H, s, k, e) && CollisionFree(H, Recorded(H, s, k, e).hashed)
    requires IsClosed(k, p) && p in Recorded(H, s, k, e).blocks && Spares(e, p)
    ensures var s' := Step(H, s, e).meta;
      && IsClosed(Recorded(H, s, k, e), p) && Get(s'.nodes, p) == Get(s.meta.nodes, p) && SameButAccess(s.meta, s', p)
      && (Owned(s', p) == Owned(s.meta, p) <==> !ReadsRecord(s, e, p) || MetaOf(s.meta, p).value.atim == e.now)
  {
    hide Inv, Respond, FilesWF, MapsExist, Distinct, Contents;
    ClosedFacts(H, s, k, p);
    StaysClosed(H, s, k, e, p);
    if OnAttributes(e) {
      AttributesKeep(H, s, k, e, p);
    } else if ReadsRecord(s, e, p) {
      ReadKeeps(H, s, e, p);
    } else if e.ERecover? {
      RecoverKeeps(H, s, k, e, p);
    } else {
      StepKeeps(H, s, k, e, p);
      KeptMeans(s, Step(H, s, e).meta, p);
    }
  }

  lemma ClosedFacts(H: Hasher, s: Sys, k: Hist, p: Path)
    requires Full(H, s, k) && IsClosed(k, p)
    ensures HasRecord(s, p) && Closed(H, View(s, k, p)) && !s.meta.nodes[p].isDir && p in s.fs.dir
      && MetaOf(s.meta, p).Some?
  {
    hide WF, FilesWF;
    assert HasRecord(s, p);
    assert PathOk(H, k.hashed, View(s, k, p), p);
  }

  lemma StaysClosed(H: Hasher, s: Sys, k: Hist, e: Event, p: Path)
    requires Allowed(H, s, k, e) && IsClosed(k, p) && p in s.fs.dir && p in Recorded(H, s, k, e).blocks
    ensures IsClosed(Recorded(H, s, k, e), p)
  {
  }

  lemma StepKeeps(H: Hasher, s: Sys, k: Hist, e: Event, p: Path)
    requires Full(H, s, k) && Allowed(H, s, k, e) && CollisionFree(H, Recorded(H, s, k, e).hashed)
    requires IsClosed(k, p) && p in Recorded(H, s, k, e).blocks && !OnAttributes(e) && !e.ERecover?
      && !ReadsRecord(s, e, p)
    requires HasRecord(s, p) && Closed(H, View(s, k, p))
    ensures KeptFor(s.meta, Step(H, s, e).meta, p)
  {
    if e.ERelease? {
      ReleaseKeepsFor(H, s, k, e, p);
    } else if e.EOpen? || e.EWrite? || e.ELookup? {
      QuietKeeps(H, s, k, e, p);
    } else if e.ERead? || e.EOpendir? {
      AccessKeeps(H, s, e, p);
    } else {
      NamesKeep(H, s, k, e, p);
    }
  }

  /** A step that changes names. */
  lemma NamesKeep(H: Hasher, s: Sys, k: Hist, e: Event, p: Path)
    requires Full(H, s, k) && Allowed(H, s, k, e) && (e.ECreate? || e.EMkdir? || e.ERmdir? || e.EUnlink?)
    requires IsClosed(k, p) && p in Recorded(H, s, k, e).blocks && HasRecord(s, p) && Closed(H, View(s, k, p))
    ensures KeptFor(s.meta, Step(H, s, e).meta, p)
  {
    hide WF, FilesWF, Contents;
    assert p in s.fs.dir && p !in s.fs.folders;
    assert PathOk(H, k.hashed, View(s, k, e.p), e.p);
    if e.ECreate? {
      CreateKeeps(H, s, e, p);
    } else if e.EMkdir? {
      if Unused(s.fs, e.p) {
        MkdirKeeps(H, s, e, p);
      }
    } else if e.ERmdir? {
      RmdirKeeps(H, s, e, p);
    } else {
      UnlinkKeeps(H, s, k, e, p);
    }
  }

  /** From the i-th event on, nobody operates on p's attributes. */
  ghost predicate LeftAlone(es: seq<Event>, i: nat, p: Path) {
    forall j | i <= j < |es| :: Spares(es[j], p)
  }

  /** From the i-th event on, nobody reads through a handle that holds p's key. */
  ghost predicate Unread(H: Hasher, es: seq<Event>, i: nat, p: Path) {
    forall j | i <= j < |es| :: !ReadsRecord(After(H, es[..j]), es[j], p)
  }

  lemma UnreadPrefix(H: Hasher, es: seq<Event>, i: nat, p: Path)
    requires i < |es| && Unread(H, es, i, p)
    ensures var init := es[..|es| - 1]; Unread(H, init, i, p) && !ReadsRecord(After(H, init), es[|es| - 1], p)
  {
    var init := es[..|es| - 1];
    forall j | i <= j < |init| ensures !ReadsRecord(After(H, init[..j]), init[j], p) {
      assert init[..j] == es[..j];
    }
  }

  /** From the release of a file to its removal, whatever else goes on: creating, writing, reading, releasing and
      unlinking other copies of it, changing their attributes, restarts with files open. Only a Read through a
      handle that holds the file's key changes anything: the access time. */
  lemma {:induction false} AttributesPersist(H: Hasher, es: seq<Event>, i: nat, p: Path)
    requires CleanRun(H, es) && i <= |es| && Stays(H, es, i, p) && IsClosed(HistAfter(H, es[..i]), p)
    requires LeftAlone(es, i, p)
    ensures var was, now := After(H, es[..i]).meta, After(H, es).meta;
      && IsClosed(HistAfter(H, es), p) && Get(now.nodes, p) == Get(was.nodes, p) && SameButAccess(was, now, p)
      && (Unread(H, es, i, p) ==> Owned(now, p) == Owned(was, p))
  {
    hide Respond, Full, XInv, Allowed;
    if i == |es| {
      assert es[..i] == es;
      CleanRunsAreFull(H, es);
      ClosedFacts(H, After(H, es), HistAfter(H, es), p);
    } else {
      var init := es[..|es| - 1];
      StaysPrefix(H, es, i, p);
      CleanPrefix(H, es);
      AttributesPersist(H, init, i, p);
      CleanRunsAreFull(H, init);
      AttributeMapsAreDistinct(H, init);
      StepKeepsOwned(H, After(H, init), HistAfter(H, init), es[|es| - 1], p);
      if Unread(H, es, i, p) {
        UnreadPrefix(H, es, i, p);
      }
    }
  }

  // ---------- whose access time a Read renews ----------

  lemma StepKeepsKey(H: Hasher, s: Sys, k: Hist, e: Event, p: Path)
    requires Full(H, s, k) && XInv(s.meta) && Allowed(H, s, k, e) && CollisionFree(H, Recorded(H, s, k, e).hashed)
    requires IsClosed(k, p) && p in Recorded(H, s, k, e).blocks
    ensures IsClosed(Recorded(H, s, k, e), p) && Get(Step(H, s, e).meta.nodes, p) == Get(s.meta.nodes, p)
  {
    hide Respond, WF, FilesWF;
    if OnAttributes(e) {
      AttributeEvent(H, s, e);
    } else {
      StepKeepsOwned(H, s, k, e, p);
    }
  }

  /** The key in a handle leads to no record, or it is the key of the file the handle was opened on. */
  ghost predicate OwnKey(s: Sys, k: Hist, fd: nat, p: Path) {
    && fd in s.handles
    && ((s.handles[fd].hash == ZERO && s.handles[fd].ref == 0)
        || (IsClosed(k, p) && Get(s.meta.nodes, p).Some? && s.meta.nodes[p].hash == s.handles[fd].hash
            && s.meta.nodes[p].ref == s.handles[fd].ref))
  }

  lemma OpenGivesOwnKey(H: Hasher, s: Sys, k: Hist, fd: nat, p: Path)
    requires Full(H, s, k) && p in k.blocks
    ensures OwnKey(Step(H, s, EOpen(p, fd, false, false, true)), k, fd, p)
  {
    assert PathOk(H, k.hashed, View(s, k, p), p);
  }

  lemma {:induction false} RunKeepsOwnKey(H: Hasher, es: seq<Event>, i: nat, fd: nat, p: Path)
    requires CleanRun(H, es) && i < |es| && es[i] == EOpen(p, fd, false, false, true) && Stays(H, es, i, p)
    requires forall j | i < j < |es| :: !Closes(es[j], fd)
    ensures OwnKey(After(H, es), HistAfter(H, es), fd, p)
  {
    hide Respond, Full, XInv, Contents, Allowed;
    var init, e := es[..|es| - 1], es[|es| - 1];
    StaysPrefix(H, es, i, p);
    CleanPrefix(H, es);
    CleanRunsAreFull(H, init);
    if i == |init| {
      OpenGivesOwnKey(H, After(H, init), HistAfter(H, init), fd, p);
    } else {
      RunKeepsOwnKey(H, init, i, fd, p);
      StepKeepsHandle(H, After(H, init), e, fd);
      AttributeMapsAreDistinct(H, init);
      if IsClosed(HistAfter(H, init), p) {
        StepKeepsKey(H, After(H, init), HistAfter(H, init), e, p);
      }
    }
  }

  lemma OwnKeyReachesNoOther(H: Hasher, s: Sys, k: Hist, fd: nat, p: Path, now: Timespec, q: Path)
    requires Full(H, s, k) && OwnKey(s, k, fd, p) && q != p
    ensures !ReadsRecord(s, ERead(fd, now), q) || MetaOf(s.meta, q).None?
  {
    hide Respond, HasRecord, Shared, Release, ReleaseDuplicate, ReleaseUnique;
    assert PathOk(H, k.hashed, View(s, k, q), q);
    if IsClosed(k, p) && IsClosed(k, q) {
      KeysDiffer(s, k, p, q);
    }
  }

  /** As long as the file it was opened on exists, reading through a descriptor touches no other file's record. */
  lemma ReadReachesOwnFile(H: Hasher, es: seq<Event>, i: nat, fd: nat, p: Path, now: Timespec, q: Path)
    requires CleanRun(H, es) && i < |es| && es[i] == EOpen(p, fd, false, false, true) && Stays(H, es, i, p)
    requires (forall j | i < j < |es| :: !Closes(es[j], fd)) && q != p
    ensures MetaOf(Step(H, After(H, es), ERead(fd, now)).meta, q) == MetaOf(After(H, es).meta, q)
  {
    RunKeepsOwnKey(H, es, i, fd, p);
    CleanRunsAreFull(H, es);
    OwnKeyReachesNoOther(H, After(H, es), HistAfter(H, es), fd, p, now, q);
    ReadLeavesRecord(H, After(H, es), ERead(fd, now), q);
  }

  // ---------- what a user sets stays set ----------

  lemma {:induction false} CleanAfter(H: Hasher, es: seq<Event>, i: nat)
    requires CleanRun(H, es) && i <= |es|
    ensures CleanRun(H, es[..i])
  {
    if i == |es| {
      assert es[..i] == es;
    } else {
      CleanPrefix(H, es);
      assert es[..|es| - 1][..i] == es[..i];
      CleanAfter(H, es[..|es| - 1], i);
    }
  }

  lemma AfterSetattr(H: Hasher, es: seq<Event>, i: nat, e: Event)
    requires i < |es| && es[i] == e && e.ESetattr?
    ensures After(H, es[..i + 1]) == Step(H, After(H, es[..i]), e)
    ensures HistAfter(H, es[..i + 1]) == HistAfter(H, es[..i])
  {
    assert es[..i + 1][..i] == es[..i];
  }

  /** The i-th event sets attributes of p; at the end of the run Getattr still shows them, the access time unless
      a handle with p's key has been read through. */
  lemma WhatIsSetStaysSet(H: Hasher, es: seq<Event>, i: nat, p: Path, f: Option<nat>, x: Stat)
    requires CleanRun(H, es) && i < |es| && es[i].ESetattr? && es[i].p == p && Stays(H, es, i, p)
    requires IsClosed(HistAfter(H, es[..i]), p) && Respond(H, After(H, es[..i]), es[i]).reply == Err(OK)
    requires LeftAlone(es, i + 1, p)
    ensures var was, out := Getattr(After(H, es[..i]), p, f, x), Getattr(After(H, es), p, f, x);
      && was.Some? && out.Some? && Granted(es[i].i, es[i].wantsOut, es[i].now, was.value, out.value)
      && (Unread(H, es, i + 1, p) ==> AccessGranted(es[i].i, was.value, out.value))
  {
    SetattrPersists(H, es, i, es[i]);
    SetThenKept(H, After(H, es[..i]), es[i], After(H, es), f, x);
  }

  lemma SetattrPersists(H: Hasher, es: seq<Event>, i: nat, e: Event)
    requires CleanRun(H, es) && i < |es| && es[i] == e && e.ESetattr? && Stays(H, es, i, e.p)
    requires IsClosed(HistAfter(H, es[..i]), e.p) && LeftAlone(es, i + 1, e.p)
    ensures MetaOf(After(H, es[..i]).meta, e.p).Some?
    ensures var was, now := Step(H, After(H, es[..i]), e).meta, After(H, es).meta;
      SameButAccess(was, now, e.p) && (Unread(H, es, i + 1, e.p) ==> Owned(now, e.p) == Owned(was, e.p))
  {
    CleanAfter(H, es, i);
    CleanRunsAreFull(H, es[..i]);
    ClosedFacts(H, After(H, es[..i]), HistAfter(H, es[..i]), e.p);
    AfterSetattr(H, es, i, e);
    AttributesPersist(H, es, i + 1, e.p);
  }

  lemma RecordShows(s: Sys, p: Path, f: Option<nat>, x: Stat)
    requires MetaOf(s.meta, p).Some?
    ensures Getattr(s, p, f, x) == Some(FillAttr(MetaOf(s.meta, p).value))
  {
  }

  lemma SetattrKeepsRecord(s: Sys, p: Path, i: SetAttrIn, wantsOut: bool, now: Timespec)
    requires MetaOf(s.meta, p).Some?
    ensures MetaOf(Setattr(s, p, i, wantsOut, now).sys.meta, p).Some?
  {
  }

  lemma SetattrIs(H: Hasher, s: Sys, p: Path, i: SetAttrIn, wantsOut: bool, now: Timespec)
    ensures Respond(H, s, ESetattr(p, i, wantsOut, now)) == Setattr(s, p, i, wantsOut, now)
  {
  }

  lemma SetThenKept(H: Hasher, s: Sys, e: Event, s': Sys, f: Option<nat>, x: Stat)
    requires e.ESetattr? && MetaOf(s.meta, e.p).Some? && Respond(H, s, e).reply == Err(OK)
    requires SameButAccess(Step(H, s, e).meta, s'.meta, e.p)
    ensures var was, out := Getattr(s, e.p, f, x), Getattr(s', e.p, f, x);
      && was.Some? && out.Some? && Granted(e.i, e.wantsOut, e.now, was.value, out.value)
      && (Owned(s'.meta, e.p) == Owned(Step(H, s, e).meta, e.p) ==> AccessGranted(e.i, was.value, out.value))
  {
    hide Respond;
    SetattrIs(H, s, e.p, e.i, e.wantsOut, e.now);
    SetattrKeepsRecord(s, e.p, e.i, e.wantsOut, e.now);
    SetattrShows(s, e.p, e.i, e.wantsOut, e.now, f, x);
    RecordShows(s', e.p, f, x);
    RecordShows(Step(H, s, e), e.p, f, x);
  }

  // ---------- what they are to begin with ----------

  /** What there is to know of a file at its Release: its owner and size, the device, its inode number and
      generation, what stat() says of a file made at that moment and of its content, and the time. */
  datatype Birth = Birth(
    owner: Owner, size: int, dev: nat, ino: nat, gen: nat, made: Stat, content: Stat, now: Timespec)

  /** A record for p that does not betray whether p's content was new or a link was made: one link, and everything
      as a file of its own has it. */
  ghost predicate OwnRecord(s: Store, l: Loc, p: Path, b: Birth) {
    MetaAt(s, l).Some? &&
    var m := MetaAt(s, l).value;
    && m.path == p && m.dev == b.dev && m.ino == b.ino && m.gen == b.gen && m.nlink == 1
    && m.uid == b.owner.uid && m.gid == b.owner.gid && m.size == b.size
    && m.mode == b.made.mode && m.rdev == b.made.rdev && m.pad0 == b.made.pad0 && m.unused == b.made.unused
    && m.blocks == b.content.blocks && m.blksize == b.content.blksize
    && m.atim == b.made.atim && m.mtim == b.now && m.ctim == b.now
    && m.xattr.Some? && Get(s.xattrs, m.xattr.value) == Some(map[])
  }

  lemma FillUniqueOwn(s: Store, h: Hash, r: nat, st: Stat, stable: StableAttr, p: Path, owner: Owner, now: Timespec)
    requires Live(s.files, h, r) && s.files[h].list[r].xattr.None? && st.nlink == 1
    ensures OwnRecord(FillUnique(s, FileLoc(h, r), st, stable, p, None, owner, now), FileLoc(h, r), p,
                      Birth(owner, st.size, st.dev, stable.ino, stable.gen, st, st, now))
  {
    var l := FileLoc(h, r);
    var m1 := FromStat(s.files[h].list[r], st, stable, p, s.next);
    var t1 := Put(NewXAttrs(s), l, m1);
    MetaAfterPut(NewXAttrs(s), l, m1);
    var m2 := WithOwner(m1, Some(owner.uid), Some(owner.gid));
    MetaAfterPut(t1, l, m2);
    MetaAfterPut(Put(t1, l, m2), l, WithTime(m2, None, Some(now), Some(now)));
  }

  lemma FillDuplicateOwn(s: Store, h: Hash, r: nat, spare: Stat, link: Stat, p: Path, owner: Owner, now: Timespec)
    requires Lookup(s.files, h, r) == Some(DEFAULT_META) && spare.nlink == 1
    ensures OwnRecord(FillDuplicate(s, FileLoc(h, r), spare, link, p, owner, now), FileLoc(h, r), p,
                      Birth(owner, link.size, spare.dev, 0, 0, spare, link, now))
  {
    var l := FileLoc(h, r);
    var m1 := FromSpare(s.files[h].list[r], spare, link, p, owner.uid, owner.gid, s.next);
    MetaAfterPut(NewXAttrs(s), l, m1);
    MetaAfterPut(Put(NewXAttrs(s), l, m1), l, WithTime(m1, None, Some(now), Some(now)));
  }

  /** What the calls of a Release say of the file: fstat() of its own inode if the content is new; otherwise
      lstat() of the link for the content, and stat() of the spare file for the rest. The inode number and
      generation of the record of a link stay 0. */
  function BirthOf(s: Sys, p: Path, o: Env, linked: bool): Birth
    requires p in s.fs.dir
  {
    if linked then Birth(BufferOwner(s, p), |Contents(s.fs)[p]|, s.fs.dev, 0, 0, o.spareSt, o.st, o.now)
    else Birth(BufferOwner(s, p), |Contents(s.fs)[p]|, s.fs.dev, o.stable.ino, o.stable.gen, o.st, o.st, o.now)
  }

  lemma UniqueOwn(H: Hasher, s: Sys, fd: nat, p: Path, o: Env, h: Hash)
    requires Ready(s, fd, p) && h == FinalHash(H, s, p) && IsUnique(s.meta.files, h) && Room(s.meta.files, h)
    requires o.fstatOk && s.fs.fds[fd] == s.fs.dir[p] && Private(s.fs.dir, p)
    ensures OwnRecord(Release(H, s, fd, p, o).sys.meta, FileLoc(h, ClaimedRef(s.meta.files, h)), p,
                      BirthOf(s, p, o, false))
  {
    TakenShape(s, fd, p, h);
    OnlyName(s.fs, p);
    FillUniqueOwn(Taken(s, fd, p, h).meta, h, ClaimedRef(s.meta.files, h), StatOf(s.fs, s.fs.fds[fd], o.st), o.stable,
                  p, BufferOwner(s, p), o.now);
  }

  /** The duplicate branch from the point where it has its descriptor closed. */
  lemma DuplicateOwn(s: Sys, p: Path, h: Hash, r: nat, rec: Meta, owner: Owner, o: Env)
    requires WF(s.fs) && Unused(s.fs, TmpPath(p)) && Unused(s.fs, SparePath(p)) && p in s.fs.dir && rec.path in s.fs.dir
    requires s.fs.dir[p] != s.fs.dir[rec.path] && Contents(s.fs)[rec.path] == Contents(s.fs)[p]
    requires AllWell(o) && Lookup(s.meta.files, h, r) == Some(DEFAULT_META)
    requires var fs' := Rename(Link(s.fs, rec.path, TmpPath(p)).value, TmpPath(p), p).value;
      o.spareFd !in fs'.fds && o.spareIno !in fs'.inodes
    ensures OwnRecord(ReleaseDuplicate(s, p, h, r, Some(rec), None, owner, o).sys.meta, FileLoc(h, r), p,
                      Birth(owner, |Contents(s.fs)[p]|, s.fs.dev, 0, 0, o.spareSt, o.st, o.now))
  {
    hide WF;
    NothingToGiveUpFor(s, p, rec, o);
    GoingOnFinishes(s, p, h, r, Some(rec), None, owner, o);
    var linked := LinkEffect(s.fs, rec.path, TmpPath(p));
    var fs' := ReplaceByLink(s.fs, rec.path, p, TmpPath(p));
    var st := StatOf(linked, linked.dir[TmpPath(p)], o.st);
    assert st.size == |Contents(linked)[TmpPath(p)]|;
    SpareKeepsTree(fs', SparePath(p), o.spareFd, o.spareIno);
    var fs1 := Close(OpenCreate(fs', SparePath(p), o.spareFd, o.spareIno).value, o.spareFd);
    SpareHasOneName(fs', SparePath(p), o.spareIno, fs1);
    FillDuplicateOwn(s.meta, h, r, StatOf(fs1, fs1.dir[SparePath(p)], o.spareSt), st, p, owner, o.now);
  }

  lemma SpareHasOneName(fs: FS, spare: Path, ino: nat, fs1: FS)
    requires WF(fs) && ino !in fs.inodes && spare !in fs.dir && WF(fs1) && fs1.dir == fs.dir[spare := ino]
    ensures At(fs1, fs1.dir[spare]).nlink == 1
  {
    OnlyName(fs1, spare);
  }

  /** Some other file was released after being written by the same blocks. */
  ghost predicate HasTwin(k: Hist, p: Path) {
    p in k.blocks && k.blocks[p] != [] && exists q :: IsClosed(k, q) && q != p && k.blocks[q] == k.blocks[p]
  }

  /** In a clean run, content is known exactly if a file with it exists. */
  lemma TwinsAreKnown(H: Hasher, s: Sys, k: Hist, p: Path, h: Hash)
    requires Full(H, s, k) && p in k.open && p in k.blocks && CollisionFree(H, k.hashed + Inputs(H, k.blocks[p]))
    requires h == Fingerprint(H, k.blocks[p])
    ensures !IsUnique(s.meta.files, h) <==> HasTwin(k, p)
  {
    hide WF, FilesWF, Contents;
    FingerprintIdentifiesBlocks(H, k.blocks[p], [], k.hashed + Inputs(H, k.blocks[p]));
    if !IsUnique(s.meta.files, h) {
      TwinOf(H, s, k, p, h);
    }
    if HasTwin(k, p) {
      var q :| IsClosed(k, q) && q != p && k.blocks[q] == k.blocks[p];
      ClosedFacts(H, s, k, q);
    }
  }

  lemma TwinOf(H: Hasher, s: Sys, k: Hist, p: Path, h: Hash)
    requires Full(H, s, k) && p in k.open && p in k.blocks && CollisionFree(H, k.hashed + Inputs(H, k.blocks[p]))
    requires h == Fingerprint(H, k.blocks[p]) && !IsUnique(s.meta.files, h) && k.blocks[p] != []
    ensures HasTwin(k, p)
  {
    var r := KnownCopy(H, s, k, p, h);
    RecordedCopy(H, s, k, p, h, r);
    assert IsClosed(k, s.meta.files[h].list[r].path);
  }

  /** Getattr shows a file with one link, and everything else as a file of its own has it. */
  predicate ShowsOwn(a: Attr, b: Birth) {
    && a.nlink == 1 && a.uid == b.owner.uid && a.gid == b.owner.gid && a.mode == b.made.mode && a.ino == b.ino
    && a.size == b.size % U64 && a.blocks == b.content.blocks % U64 && a.blksize == b.content.blksize % U32
    && a.rdev == b.made.rdev % U32
    && a.atime == b.made.atim.sec % U64 && a.atimensec == b.made.atim.nsec % U32
    && a.mtime == b.now.sec % U64 && a.mtimensec == b.now.nsec % U32
    && a.ctime == b.now.sec % U64 && a.ctimensec == b.now.nsec % U32
  }

  lemma OwnRecordShows(s: Sys, p: Path, b: Birth, f: Option<nat>, x: Stat)
    requires LocOf(s.meta, p).Some? && OwnRecord(s.meta, LocOf(s.meta, p).value, p, b)
    ensures Getattr(s, p, f, x).Some? && ShowsOwn(Getattr(s, p, f, x).value, b)
    ensures XAttrMapOf(s.meta, p) == Some(map[])
  {
  }

  /** A file just released shows as owner whoever the events since its Create name first, which is the caller of
      that Create if there is one; one link; its own size, blocks and block size; the time of its release; no
      extended attributes; and for the rest what stat() says of a file made at that moment. The tree is asked for
      that through the file itself if the content is new, and through a spare file if another file has it. */
  lemma ReleaseGivesOwnAttributes(H: Hasher, es: seq<Event>, i: nat, fd: nat, p: Path, o: Env, f: Option<nat>, x: Stat)
    requires CleanRun(H, es + [ERelease(fd, p, o)]) && p in HistAfter(H, es).open && HistAfter(H, es).open[p] == fd
    requires i < |es| && es[i].ECreate? && es[i].p == p && forall j | i < j < |es| :: !(es[j].ECreate? && es[j].p == p)
    ensures var s' := After(H, es + [ERelease(fd, p, o)]);
      p in s'.fs.dir && LocOf(s'.meta, p).Some? &&
      var noted, size, dev := FirstNoted(H, es, i, p), |Contents(s'.fs)[p]|, s'.fs.dev;
      var owner := if noted.Some? then noted.value else Owner(0, 0);
      var b := if HasTwin(HistAfter(H, es), p) then Birth(owner, size, dev, 0, 0, o.spareSt, o.st, o.now)
               else Birth(owner, size, dev, o.stable.ino, o.stable.gen, o.st, o.st, o.now);
      && OwnRecord(s'.meta, LocOf(s'.meta, p).value, p, b)
      && Getattr(s', p, f, x).Some? && ShowsOwn(Getattr(s', p, f, x).value, b)
      && XAttrMapOf(s'.meta, p) == Some(map[])
    ensures es[i].caller.Some? ==> FirstNoted(H, es, i, p) == es[i].caller
  {
    hide Respond, Inv, OwnRecord, ShowsOwn, Getattr;
    var all := es + [ERelease(fd, p, o)];
    assert all[..|all| - 1] == es && all[|all| - 1] == ERelease(fd, p, o);
    CleanPrefix(H, all);
    CleanRunsAreFull(H, es);
    assert Clean(ERelease(fd, p, o));
    PendingIsFirstNoted(H, es, i, p);
    ReleasedOwn(H, After(H, es), HistAfter(H, es), fd, p, o);
    ReleaseIs(H, After(H, es), fd, p, o);
    OwnRecordShows(After(H, all), p, BirthOf(After(H, es), p, o, HasTwin(HistAfter(H, es), p)), f, x);
  }

  lemma ReleasedOwn(H: Hasher, s: Sys, k: Hist, fd: nat, p: Path, o: Env)
    requires Full(H, s, k) && Allowed(H, s, k, ERelease(fd, p, o)) && AllWell(o) && p in k.open && k.open[p] == fd
    requires CollisionFree(H, Recorded(H, s, k, ERelease(fd, p, o)).hashed)
    ensures var s' := Release(H, s, fd, p, o).sys;
      && p in s.fs.dir && p in s'.fs.dir && s'.fs.dev == s.fs.dev && Contents(s'.fs)[p] == Contents(s.fs)[p]
      && LocOf(s'.meta, p).Some? && OwnRecord(s'.meta, LocOf(s'.meta, p).value, p, BirthOf(s, p, o, HasTwin(k, p)))
  {
    hide WF, FilesWF, Contents, OwnRecord, HasTwin, Release, Released, Branch, BirthOf, Shared, AllRecorded, RecordsOk;
    var s', h := Release(H, s, fd, p, o).sys, FinalHash(H, s, p);
    WritingFacts(H, s, k, p);
    var dir, e, q := ReleaseBranch(H, s, k, fd, p, o);
    BranchDir(s, k, s', p, h, o, dir, e, q);
    ReleasedRecord(H, s, k, fd, p, o, h);
    OwnRecordOf(s, s', p, fd, h, dir, e);
  }

  lemma ReleasedRecord(H: Hasher, s: Sys, k: Hist, fd: nat, p: Path, o: Env, h: Hash)
    requires Full(H, s, k) && Allowed(H, s, k, ERelease(fd, p, o)) && AllWell(o) && p in k.open && k.open[p] == fd
    requires CollisionFree(H, Recorded(H, s, k, ERelease(fd, p, o)).hashed) && h == FinalHash(H, s, p) && p in s.fs.dir
    ensures OwnRecord(Release(H, s, fd, p, o).sys.meta, FileLoc(h, ClaimedRef(s.meta.files, h)), p,
                      BirthOf(s, p, o, HasTwin(k, p)))
  {
    hide WF, FilesWF, Contents, OwnRecord, HasTwin;
    WritingFacts(H, s, k, p);
    OpenIsReady(H, s, k, p);
    TwinsAreKnown(H, s, k, p, h);
    if IsUnique(s.meta.files, h) {
      assert Private(s.fs.dir, p);
      UniqueOwn(H, s, fd, p, o, h);
    } else {
      LinkedOwn(H, s, k, fd, p, o, h);
    }
  }

  lemma OwnRecordOf(s: Sys, s': Sys, p: Path, fd: nat, h: Hash, dir: map<Path, nat>, e: Ending)
    requires Released(s, s', p, fd, h, dir, e) && p in s.fs.dir && p in dir && p in s.meta.nodes
      && !s.meta.nodes[p].isDir
    ensures p in s'.fs.dir && s'.fs.dev == s.fs.dev && Contents(s'.fs)[p] == Contents(s.fs)[p]
    ensures LocOf(s'.meta, p) == Some(FileLoc(h, ClaimedRef(s.meta.files, h)))
  {
  }

  /** Where a file with known content is linked to. */
  lemma KnownCopy(H: Hasher, s: Sys, k: Hist, p: Path, h: Hash) returns (r: nat)
    requires Full(H, s, k) && p in k.open && p in k.blocks && CollisionFree(H, k.hashed + Inputs(H, k.blocks[p]))
    requires h == Fingerprint(H, k.blocks[p]) && !IsUnique(s.meta.files, h)
    ensures Live(s.meta.files, h, r) && Recent(s.meta.files[h]) == Some(s.meta.files[h].list[r])
    ensures var q := s.meta.files[h].list[r].path;
      q in s.fs.dir && p in s.fs.dir && s.fs.dir[q] != s.fs.dir[p] && Contents(s.fs)[q] == Contents(s.fs)[p]
  {
    r := RecentIsLargest(s.meta.files[h]);
    var q := s.meta.files[h].list[r].path;
    FullHasCopy(s.meta.files, h);
    ClosedKey(H, s, k, q, h, r);
    assert PathOk(H, k.hashed, View(s, k, q), q);
    RecordedCopy(H, s, k, p, h, r);
    WritingFacts(H, s, k, p);
  }

  lemma LinkedOwn(H: Hasher, s: Sys, k: Hist, fd: nat, p: Path, o: Env, h: Hash)
    requires Full(H, s, k) && Allowed(H, s, k, ERelease(fd, p, o)) && AllWell(o) && p in k.open && k.open[p] == fd
    requires p in k.blocks && CollisionFree(H, k.hashed + Inputs(H, k.blocks[p])) && Ready(s, fd, p)
    requires h == FinalHash(H, s, p) == Fingerprint(H, k.blocks[p]) && !IsUnique(s.meta.files, h)
    ensures OwnRecord(Release(H, s, fd, p, o).sys.meta, FileLoc(h, ClaimedRef(s.meta.files, h)), p,
                      BirthOf(s, p, o, true))
  {
    hide Full, OwnRecord;
    var s2 := TakenClosed(s, fd, p, h);
    var r := KnownCopy(H, s, k, p, h);
    var rec := s.meta.files[h].list[r];
    DuplicateStarts(H, s, fd, p, o, h, s2);
    TakenShape(s, fd, p, h);
    var fs2 := CloseEffect(s.fs, fd);
    NothingToGiveUpFor(s2, p, rec, o);
    DuplicateOwn(s2, p, h, ClaimedRef(s.meta.files, h), rec, BufferOwner(s, p), o);
  }
}
