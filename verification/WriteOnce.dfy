/** Write-once runs: which steps they may take, the bookkeeping that states their invariant, and the
    invariant itself. Any of Release's fstat, link, lstat, rename, open and stat calls may fail. */
module WriteOnce {
  import opened Basics
  import opened Fingerprints
  import opened StoreModel
  import opened Underlying
  import opened Session
  import opened DedupTree

  /** What happened so far: the blocks written to each existing file, the handle that is still writing it, the
      files a restart has left behind that were being written when the process stopped, and everything fed to
      the hash function on behalf of file contents. */
  datatype Hist = Hist(blocks: map<Path, seq<Bytes>>, open: map<Path, nat>, left: set<Path>, hashed: set<Bytes>)

  const NO_HIST := Hist(map[], map[], {}, {})

  /** p has been released. */
  predicate IsClosed(k: Hist, p: Path) { p in k.blocks && p !in k.open && p !in k.left }

  /** p is being written, or was when the process stopped. */
  predicate Unreleased(k: Hist, p: Path) { p in k.open || p in k.left }

  /** The tree as it is when a duplicate Release opens its spare file. */
  ghost function SpareTree(H: Hasher, s: Sys, fd: nat, p: Path): FS {
    var fs, h := Close(s.fs, fd), FinalHash(H, s, p);
    var rec := Recent(CreateEntry(s.meta.files, h)[h]);
    if rec.None? || Link(fs, rec.value.path, TmpPath(p)).None? then fs
    else
      var linked := Link(fs, rec.value.path, TmpPath(p)).value;
      if Rename(linked, TmpPath(p), p).None? then fs else Rename(linked, TmpPath(p), p).value
  }

  /** The steps of a write-once run. Any other outcome the kernel may choose is allowed. */
  ghost predicate Allowed(H: Hasher, s: Sys, k: Hist, e: Event) {
    match e
    case ECreate(parent, p, fd, ino, writing, trunc, caller, x, openOk, fstatOk, now) =>
      UserPath(p) && Unused(s.fs, p) && fd !in s.fs.fds && fd !in s.handles && ino !in s.fs.inodes
      && writing && openOk && fstatOk
    case EOpen(p, fd, writing, trunc, ok) => !writing && !trunc && fd !in s.fs.fds && fd !in s.handles
    case EWrite(fd, p, data, off, caller, written, now) =>
      p in k.open && fd == k.open[p] && p in k.blocks && off == |Flatten(k.blocks[p])| && written == Some(|data|)
    case ERelease(fd, p, o) =>
      fd in s.handles && p == s.handles[fd].path
      && Room(s.meta.files, FinalHash(H, s, p)) && o.tmpUnlinkOk && o.spareUnlinkOk
      && o.spareFd !in SpareTree(H, s, fd, p).fds && o.spareIno !in SpareTree(H, s, fd, p).inodes
    case EUnlink(parent, p, ok, now) => p !in k.open
    case ERename(_, _, _, _, _, _, _) => false
    case ELink(_, _, _, _, _, _, _) => false
    case EMkdir(p, caller, x, ok, statOk) => UserPath(p) && statOk
    case _ => true
  }

  ghost function Recorded(H: Hasher, s: Sys, k: Hist, e: Event): Hist {
    match e
    case ECreate(parent, p, fd, ino, writing, trunc, caller, x, openOk, fstatOk, now) =>
      k.(blocks := k.blocks[p := []], open := k.open[p := fd])
    case EWrite(fd, p, data, off, caller, written, now) =>
      if p !in k.blocks then k else k.(blocks := k.blocks[p := k.blocks[p] + [data]], hashed := k.hashed + {data})
    case ERelease(fd, p, o) =>
      if p !in k.blocks || p !in k.open || k.open[p] != fd then k
      else k.(open := k.open - {p}, hashed := k.hashed + Inputs(H, k.blocks[p]))
    case EUnlink(parent, p, ok, now) => if ok then UnlinkedHist(k, p) else k
    case ERecover(gone) => RecoveredHist(k, gone)
    case _ => k
  }

  function UnlinkedHist(k: Hist, p: Path): Hist { k.(blocks := k.blocks - {p}, left := k.left - {p}) }

  /** What was open is left behind. */
  function RecoveredHist(k: Hist, gone: set<Path>): Hist {
    Hist(k.blocks - gone, map[], (k.left + k.open.Keys) - gone, k.hashed)
  }

  // ---------- the invariant ----------

  /** Everything the whole state knows about one path. */
  datatype PathView = PathView(
    ino: Option<nat>, bytes: Option<Bytes>, folder: bool, node: Option<NodeInfo>, pending: Option<Bytes>,
    blocks: Option<seq<Bytes>>, left: bool, fd: Option<nat>, handle: Option<Handle>, fdIno: Option<nat>)

  function PendingBuffer(buffers: map<Path, WriteStore>, p: Path): Option<Bytes> {
    if p in buffers then buffers[p].buffer else None
  }

  function View(s: Sys, k: Hist, p: Path): PathView {
    PathView(Get(s.fs.dir, p), Get(Contents(s.fs), p), p in s.fs.folders, Get(s.meta.nodes, p),
             PendingBuffer(s.buffers, p),
             Get(k.blocks, p), p in k.left, Get(k.open, p),
             if p in k.open then Get(s.handles, k.open[p]) else None,
             if p in k.open then Get(s.fs.fds, k.open[p]) else None)
  }

  /** A file being written: its handle leads to its inode, it has no key yet, and its pending buffer holds
      exactly the digests of the blocks written so far. */
  ghost predicate Writing(H: Hasher, v: PathView, p: Path) {
    && v.blocks.Some? && v.ino.Some? && v.fdIno == v.ino && !v.folder && !v.left
    && v.handle == Some(Handle(p, true, ZERO, 0))
    && v.node.Some? && !v.node.value.isDir && v.node.value.hash == ZERO && v.node.value.ref == 0
    && v.pending == (if v.blocks.value == [] then None else Some(Digests(H, v.blocks.value)))
  }

  /** A closed file: its key carries the fingerprint of its blocks, even when its Release failed. */
  ghost predicate Closed(H: Hasher, v: PathView) {
    && v.blocks.Some? && v.ino.Some? && v.fd.None? && !v.folder && !v.left
    && v.node.Some? && !v.node.value.isDir
    && v.node.value.hash == Fingerprint(H, v.blocks.value) && v.node.value.ref >= 1
    && v.pending.None?
  }

  /** A file that was being written when the process stopped: nothing but its node entry, without a key, is left
      of it in the maps. */
  ghost predicate Abandoned(v: PathView) {
    && v.blocks.Some? && v.ino.Some? && v.fd.None? && !v.folder && v.left
    && v.node.Some? && !v.node.value.isDir && v.node.value.hash == ZERO && v.node.value.ref == 0
    && v.pending.None?
  }

  ghost predicate Folder(v: PathView) {
    && v.folder && v.ino.None? && v.blocks.None? && !v.left && v.fd.None? && v.pending.None?
    && v.node.Some? && v.node.value.isDir
  }

  ghost predicate Absent(v: PathView) {
    !v.folder && v.ino.None? && v.blocks.None? && !v.left && v.fd.None? && v.pending.None? && v.node.None?
  }

  /** A path is being written, or closed, or abandoned, or a folder, or nothing knows it; and a file's readers
      see the concatenation of the blocks written to it. */
  ghost predicate PathOk(H: Hasher, hashed: set<Bytes>, v: PathView, p: Path) {
    && (if v.fd.Some? then Writing(H, v, p) else Closed(H, v) || Abandoned(v) || Folder(v) || Absent(v))
    && (!Absent(v) ==> UserPath(p))
    && (v.blocks.Some? ==> v.bytes == Some(Flatten(v.blocks.value)) && (set b | b in v.blocks.value) <= hashed)
    && (v.blocks.Some? && v.fd.None? && !v.left ==> Inputs(H, v.blocks.value) <= hashed)
  }

  /** v is the closed file whose key is (h, r). */
  ghost predicate Owns(v: PathView, h: Hash, r: nat) {
    v.blocks.Some? && v.fd.None? && !v.left && v.node.Some? && v.node.value.hash == h && v.node.value.ref == r
  }

  /** A live record of non-empty content that names a path belongs to that path. */
  ghost predicate RecordOk(s: Sys, k: Hist, h: Hash, r: nat) {
    Live(s.meta.files, h, r) && h != ZERO && s.meta.files[h].list[r].path != [] ==>
      Owns(View(s, k, s.meta.files[h].list[r].path), h, r)
  }

  ghost predicate PathsOk(H: Hasher, s: Sys, k: Hist) {
    forall p :: PathOk(H, k.hashed, View(s, k, p), p)
  }

  ghost predicate RecordsOk(s: Sys, k: Hist) {
    forall h, r :: RecordOk(s, k, h, r)
  }

  /** Files being written have their inodes for themselves. */
  ghost predicate PrivateInv(dir: map<Path, nat>, open: map<Path, nat>) {
    forall p | p in open :: Private(dir, p)
  }

  ghost predicate HandlesInv(handles: map<nat, Handle>, open: map<Path, nat>) {
    forall fd | fd in handles && handles[fd].writing :: Get(open, handles[fd].path) == Some(fd)
  }

  ghost predicate Inv(H: Hasher, s: Sys, k: Hist) {
    && WF(s.fs)
    && FilesWF(s.meta.files)
    && PathsOk(H, s, k)
    && RecordsOk(s, k)
    && PrivateInv(s.fs.dir, k.open)
    && HandlesInv(s.handles, k.open)
    && s.meta.dirs.Keys == s.fs.folders
  }

  lemma InvInit(H: Hasher)
    ensures Inv(H, INIT, NO_HIST)
  {
  }

  // ---------- how to re-establish it ----------

  lemma StillOk(H: Hasher, hashed: set<Bytes>, hashed': set<Bytes>, v: PathView, p: Path)
    requires PathOk(H, hashed, v, p) && hashed <= hashed'
    ensures PathOk(H, hashed', v, p)
  {
  }

  /** A step that changes what is known about one path only. */
  lemma OnePathStep(H: Hasher, s: Sys, k: Hist, s': Sys, k': Hist, p: Path)
    requires PathsOk(H, s, k)
    requires k.hashed <= k'.hashed
    requires forall q | q != p :: View(s', k', q) == View(s, k, q)
    requires PathOk(H, k'.hashed, View(s', k', p), p)
    ensures PathsOk(H, s', k')
  {
    forall q ensures PathOk(H, k'.hashed, View(s', k', q), q) {
      if q != p {
        StillOk(H, k.hashed, k'.hashed, View(s, k, q), q);
      }
    }
  }

  /** Records stay owned when owners stay owners and live records come from before or are owned anew. */
  lemma RecordsStep(s: Sys, k: Hist, s': Sys, k': Hist, p: Path)
    requires RecordsOk(s, k)
    requires forall q | q != p :: View(s', k', q) == View(s, k, q)
    requires forall h, r | Live(s'.meta.files, h, r) && h != ZERO && s'.meta.files[h].list[r].path != [] ::
      || (Live(s.meta.files, h, r) && s.meta.files[h].list[r].path == s'.meta.files[h].list[r].path
          && (Owns(View(s, k, p), h, r) ==> Owns(View(s', k', p), h, r)))
      || Owns(View(s', k', s'.meta.files[h].list[r].path), h, r)
    ensures RecordsOk(s', k')
  {
    forall h, r ensures RecordOk(s', k', h, r) {
      assert RecordOk(s, k, h, r);
    }
  }

  /** The same, for a step that leaves the map alone and does not end p's ownership. */
  lemma SameRecordsStep(s: Sys, k: Hist, s': Sys, k': Hist, p: Path)
    requires RecordsOk(s, k) && s'.meta.files == s.meta.files
    requires forall q | q != p :: View(s', k', q) == View(s, k, q)
    requires forall h, r :: Owns(View(s, k, p), h, r) ==> Owns(View(s', k', p), h, r)
    ensures RecordsOk(s', k')
  {
    RecordsStep(s, k, s', k', p);
  }

  /** A step after which every view is what it was. */
  lemma SameViewsStep(H: Hasher, s: Sys, k: Hist, s': Sys)
    requires PathsOk(H, s, k) && RecordsOk(s, k)
    requires forall q :: View(s', k, q) == View(s, k, q)
    requires forall h, r | Live(s'.meta.files, h, r) ::
      Live(s.meta.files, h, r) && s.meta.files[h].list[r].path == s'.meta.files[h].list[r].path
    ensures PathsOk(H, s', k) && RecordsOk(s', k)
  {
    forall h, r ensures RecordOk(s', k, h, r) {
      assert RecordOk(s, k, h, r);
    }
  }

  /** What the invariant says of one file, unfolded for the proofs that follow. */
  lemma WritingFacts(H: Hasher, s: Sys, k: Hist, p: Path)
    requires PathsOk(H, s, k) && p in k.open
    ensures Writing(H, View(s, k, p), p) && p in s.fs.dir && p in k.blocks && p !in k.left && p in s.meta.nodes
      && UserPath(p)
    ensures k.open[p] in s.handles && k.open[p] in s.fs.fds && s.fs.fds[k.open[p]] == s.fs.dir[p]
    ensures Contents(s.fs)[p] == Flatten(k.blocks[p])
  {
    assert PathOk(H, k.hashed, View(s, k, p), p);
  }

  lemma UnusedScratch(H: Hasher, s: Sys, k: Hist, p: Path)
    requires PathsOk(H, s, k) && !UserPath(p)
    ensures Unused(s.fs, p) && p !in k.blocks && p !in s.meta.nodes
  {
    assert PathOk(H, k.hashed, View(s, k, p), p);
  }
}
