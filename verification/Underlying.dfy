/** The filesystem OptiFS is mounted over, as far as link(), rename(), unlink(), open(), close() and
    pwrite() of POSIX.1-2017 (System Interfaces, chapter 3) describe it: names, inodes with stored link
    counts, and open descriptors that keep an inode alive. An operation yields None when it must fail. */
module Underlying {
  import opened Basics

  datatype Inode = Inode(bytes: Bytes, nlink: int)

  datatype FS = FS(
    dir: map<Path, nat>, inodes: map<nat, Inode>, fds: map<nat, nat>, folders: set<Path>, dev: nat)

  function At(fs: FS, i: nat): Inode {
    if i in fs.inodes then fs.inodes[i] else Inode([], 0)
  }

  /** What a reader sees under every file name. */
  function Contents(fs: FS): map<Path, Bytes> {
    map p | p in fs.dir :: At(fs, fs.dir[p]).bytes
  }

  function Names(dir: map<Path, nat>, i: nat): set<Path> {
    set p | p in dir && dir[p] == i
  }

  predicate Opened(fds: map<nat, nat>, i: nat) {
    exists fd | fd in fds :: fds[fd] == i
  }

  ghost predicate Counted(dir: map<Path, nat>, inodes: map<nat, Inode>) {
    forall i | i in inodes :: inodes[i].nlink == |Names(dir, i)|
  }

  /** Well-formed, except that inode `loose` may be waiting to be freed. */
  ghost predicate WFBut(fs: FS, loose: set<nat>) {
    && (forall p | p in fs.dir :: fs.dir[p] in fs.inodes)
    && (forall fd | fd in fs.fds :: fs.fds[fd] in fs.inodes)
    && Counted(fs.dir, fs.inodes)
    && (forall i | i in fs.inodes && i !in loose :: fs.inodes[i].nlink > 0 || Opened(fs.fds, i))
    && fs.dir.Keys !! fs.folders
  }

  /** Stored link counts are true, and an inode exists as long as a name or a descriptor needs it. */
  ghost predicate WF(fs: FS) { WFBut(fs, {}) }

  /** fs is well-formed and shows exactly these names, bytes and descriptors, on the same device as was. */
  ghost predicate Shows(fs: FS, dir: map<Path, nat>, contents: map<Path, Bytes>, fds: map<nat, nat>, was: FS) {
    WF(fs) && fs.dir == dir && Contents(fs) == contents && fs.fds == fds && fs.folders == was.folders
      && fs.dev == was.dev
  }

  /** Only one name leads to p's inode. */
  ghost predicate Private(dir: map<Path, nat>, p: Path) {
    p in dir && forall q | q in dir && dir[q] == dir[p] :: q == p
  }

  /** Free an inode that has neither names nor descriptors. */
  function Reap(fs: FS, i: nat): FS {
    if i in fs.inodes && fs.inodes[i].nlink == 0 && !Opened(fs.fds, i)
    then fs.(inodes := fs.inodes - {i}) else fs
  }

  function AddLinks(fs: FS, i: nat, n: int): map<nat, Inode> {
    fs.inodes[i := Inode(At(fs, i).bytes, At(fs, i).nlink + n)]
  }

  function Link(fs: FS, a: Path, b: Path): Option<FS> {
    if a !in fs.dir || b in fs.dir || b in fs.folders then None
    else Some(fs.(dir := fs.dir[b := fs.dir[a]], inodes := AddLinks(fs, fs.dir[a], 1)))
  }

  /** Drop a name and the link it was; the inode may now be free. */
  function Unhook(fs: FS, p: Path): FS
    requires p in fs.dir
  {
    fs.(dir := fs.dir - {p}, inodes := AddLinks(fs, fs.dir[p], -1))
  }

  function Unlink(fs: FS, p: Path): Option<FS> {
    if p !in fs.dir then None else Some(Reap(Unhook(fs, p), fs.dir[p]))
  }

  /** Point name b at a's file and drop name a. */
  function Move(fs: FS, a: Path, b: Path): FS
    requires a in fs.dir
  {
    fs.(dir := (fs.dir - {a})[b := fs.dir[a]],
        inodes := if b in fs.dir then AddLinks(fs, fs.dir[b], -1) else fs.inodes)
  }

  /** rename() of a file: nothing happens when both names are links to the same file; otherwise the new
      name is replaced in one step. */
  function Rename(fs: FS, a: Path, b: Path): Option<FS> {
    if a !in fs.dir || b in fs.folders then None
    else if b !in fs.dir then Some(Move(fs, a, b))
    else if fs.dir[b] == fs.dir[a] then Some(fs)
    else Some(Reap(Move(fs, a, b), fs.dir[b]))
  }

  /** p lies in the folder a, at whatever depth. */
  predicate Below(p: Path, a: Path) { |a| < |p| && p[..|a|] == a && p[|a|] == 47 }

  /** The name that q gets when the folder a becomes b. */
  function Relocated(q: Path, a: Path, b: Path): Path { if q == a || Below(q, a) then b + q[|a|..] else q }

  predicate HasBelow(fs: FS, a: Path) {
    (exists q | q in fs.dir :: Below(q, a)) || (exists q | q in fs.folders :: Below(q, a))
  }

  /** rename() of a folder: every name below it moves along. The new name must be free or an empty folder. */
  function RenameFolder(fs: FS, a: Path, b: Path): Option<FS> {
    if a !in fs.folders || b in fs.dir || Below(b, a) then None
    else if a == b then Some(fs)
    else if HasBelow(fs, b) then None
    else
      Some(fs.(dir := map q | q in (set x | x in fs.dir :: Relocated(x, a, b)) && Relocated(q, b, a) in fs.dir ::
                      fs.dir[Relocated(q, b, a)],
               folders := set x | x in fs.folders :: Relocated(x, a, b)))
  }

  /** The name that q gets when a and b change places. */
  function Swapped(q: Path, a: Path, b: Path): Path {
    if q == a || Below(q, a) then Relocated(q, a, b) else Relocated(q, b, a)
  }

  /** renameat2() with RENAME_EXCHANGE, for files and folders alike. */
  function Exchange(fs: FS, a: Path, b: Path): Option<FS> {
    if (a !in fs.dir && a !in fs.folders) || (b !in fs.dir && b !in fs.folders) || Below(a, b) || Below(b, a) then None
    else
      Some(fs.(dir := map q | q in (set x | x in fs.dir :: Swapped(x, a, b)) && Swapped(q, a, b) in fs.dir ::
                      fs.dir[Swapped(q, a, b)],
               folders := set x | x in fs.folders :: Swapped(x, a, b)))
  }

  /** open() with O_CREAT and without O_TRUNC; `ino` is the inode the kernel would allocate for a new name. */
  function OpenCreate(fs: FS, p: Path, fd: nat, ino: nat): Option<FS> {
    if p in fs.folders then None
    else if p in fs.dir then Some(fs.(fds := fs.fds[fd := fs.dir[p]]))
    else Some(fs.(dir := fs.dir[p := ino], inodes := fs.inodes[ino := Inode([], 1)], fds := fs.fds[fd := ino]))
  }

  /** open() without O_CREAT, possibly with O_TRUNC. */
  function Open(fs: FS, p: Path, fd: nat, trunc: bool): Option<FS> {
    if p !in fs.dir then None
    else
      var i := fs.dir[p];
      var inodes := if trunc then fs.inodes[i := Inode([], At(fs, i).nlink)] else fs.inodes;
      Some(fs.(inodes := inodes, fds := fs.fds[fd := i]))
  }

  /** open() with O_CREAT, possibly with O_TRUNC. */
  function CreateOrOpen(fs: FS, p: Path, fd: nat, ino: nat, trunc: bool): Option<FS> {
    if trunc && p in fs.dir && p !in fs.folders then Open(fs, p, fd, true) else OpenCreate(fs, p, fd, ino)
  }

  function Close(fs: FS, fd: nat): FS {
    if fd !in fs.fds then fs else Reap(fs.(fds := fs.fds - {fd}), fs.fds[fd])
  }

  /** The bytes of a file after a write at `off`, with the gap filled by zeros; writing nothing has no effect. */
  function Splice(was: Bytes, off: nat, data: Bytes): Bytes {
    if data == [] then was
    else if off + |data| < |was| then was[..off] + data + was[off + |data|..]
    else if off <= |was| then was[..off] + data
    else was + Zeros(off - |was|) + data
  }

  /** Byte by byte, `now` is `was` with `data` at `off` and zeros in the gap. */
  predicate Overwritten(was: Bytes, now: Bytes, off: nat, data: Bytes) {
    if data == [] then now == was
    else
      && |now| == (if off + |data| < |was| then |was| else off + |data|)
      && forall j | 0 <= j < |now| ::
           now[j] == if off <= j < off + |data| then data[j - off] else if j < |was| then was[j] else 0
  }

  lemma SpliceOverwrites(was: Bytes, off: nat, data: Bytes)
    ensures Overwritten(was, Splice(was, off, data), off, data)
  {
  }

  function Pwrite(fs: FS, fd: nat, off: nat, data: Bytes): Option<FS> {
    if fd !in fs.fds then None
    else
      var i := fs.fds[fd];
      Some(fs.(inodes := fs.inodes[i := Inode(Splice(At(fs, i).bytes, off, data), At(fs, i).nlink)]))
  }

  function Mkdir(fs: FS, p: Path): Option<FS> {
    if p in fs.dir || p in fs.folders then None else Some(fs.(folders := fs.folders + {p}))
  }

  function Rmdir(fs: FS, p: Path): Option<FS> {
    if p !in fs.folders then None else Some(fs.(folders := fs.folders - {p}))
  }

  /** lstat() or fstat() of inode i; everything but identity, size and link count is `other`'s. */
  function StatOf(fs: FS, i: nat, other: Stat): Stat {
    other.(dev := fs.dev, ino := i, nlink := At(fs, i).nlink, size := |At(fs, i).bytes|)
  }

  /** Any set of names disappears behind OptiFS's back, and the process restarts without descriptors. */
  function RestartWithout(fs: FS, gone: set<Path>): FS {
    var dir := fs.dir - gone;
    FS(dir, map i | i in fs.inodes && Names(dir, i) != {} :: Inode(fs.inodes[i].bytes, |Names(dir, i)|),
       map[], fs.folders - gone, fs.dev)
  }

  // ---------- link-count bookkeeping ----------

  lemma CountAdd(dir: map<Path, nat>, b: Path, i: nat)
    requires b !in dir
    ensures forall j :: |Names(dir[b := i], j)| == |Names(dir, j)| + (if j == i then 1 else 0)
  {
    forall j ensures |Names(dir[b := i], j)| == |Names(dir, j)| + (if j == i then 1 else 0) {
      NamesAdd(dir, b, i, j);
    }
  }

  lemma NamesAdd(dir: map<Path, nat>, b: Path, i: nat, j: nat)
    requires b !in dir
    ensures Names(dir[b := i], j) == Names(dir, j) + (if j == i then {b} else {}) && b !in Names(dir, j)
  {
  }

  lemma CountDrop(dir: map<Path, nat>, p: Path)
    requires p in dir
    ensures forall j :: |Names(dir - {p}, j)| == |Names(dir, j)| - (if j == dir[p] then 1 else 0)
  {
    forall j ensures |Names(dir - {p}, j)| == |Names(dir, j)| - (if j == dir[p] then 1 else 0) {
      if j == dir[p] {
        assert Names(dir, j) == Names(dir - {p}, j) + {p};
      } else {
        assert Names(dir - {p}, j) == Names(dir, j);
      }
    }
  }

  /** A link count is zero exactly when no name is left. */
  lemma NoNames(dir: map<Path, nat>, i: nat)
    ensures |Names(dir, i)| == 0 <==> forall p | p in dir :: dir[p] != i
  {
    if exists p :: p in dir && dir[p] == i {
      var p :| p in dir && dir[p] == i;
      assert p in Names(dir, i);
    } else {
      assert Names(dir, i) == {};
    }
  }

  /** The link count of a file with one name. */
  lemma OnlyName(fs: FS, p: Path)
    requires WF(fs) && Private(fs.dir, p)
    ensures At(fs, fs.dir[p]).nlink == 1
  {
    assert Names(fs.dir, fs.dir[p]) == {p};
  }

  // ---------- what each operation does to names, bytes and well-formedness ----------

  lemma ReapEffect(fs: FS, i: nat)
    requires WFBut(fs, {i})
    ensures WF(Reap(fs, i)) && Contents(Reap(fs, i)) == Contents(fs)
  {
    hide StatOf;
    NoNames(fs.dir, i);
  }

  lemma Linked(fs: FS, a: Path, b: Path, fs': FS)
    requires WF(fs) && Link(fs, a, b) == Some(fs')
    ensures WF(fs')
  {
    CountAdd(fs.dir, b, fs.dir[a]);
    assert Counted(fs'.dir, fs'.inodes);
  }

  lemma LinkEffect(fs: FS, a: Path, b: Path) returns (fs': FS)
    requires WF(fs) && Link(fs, a, b).Some?
    ensures Link(fs, a, b) == Some(fs')
    ensures WF(fs')
    ensures fs'.dir == fs.dir[b := fs.dir[a]] && fs'.fds == fs.fds && fs'.folders == fs.folders && fs'.dev == fs.dev
    ensures Contents(fs') == Contents(fs)[b := Contents(fs)[a]]
  {
    fs' := Link(fs, a, b).value;
    Linked(fs, a, b, fs');
  }

  lemma Unhooked(fs: FS, p: Path, mid: FS)
    requires WF(fs) && p in fs.dir && mid == Unhook(fs, p)
    ensures WFBut(mid, {fs.dir[p]}) && Contents(mid) == Contents(fs) - {p}
  {
    UnhookedCounted(fs, p, mid);
  }

  lemma UnhookedCounted(fs: FS, p: Path, mid: FS)
    requires WF(fs) && p in fs.dir && mid == Unhook(fs, p)
    ensures Counted(mid.dir, mid.inodes)
  {
    CountDrop(fs.dir, p);
  }

  lemma UnlinkEffect(fs: FS, p: Path) returns (fs': FS)
    requires WF(fs) && p in fs.dir
    ensures Unlink(fs, p) == Some(fs')
    ensures WF(fs')
    ensures fs'.dir == fs.dir - {p} && fs'.fds == fs.fds && fs'.folders == fs.folders && fs'.dev == fs.dev
    ensures Contents(fs') == Contents(fs) - {p}
  {
    Unhooked(fs, p, Unhook(fs, p));
    ReapEffect(Unhook(fs, p), fs.dir[p]);
    fs' := Reap(Unhook(fs, p), fs.dir[p]);
  }

  lemma CountMove(dir: map<Path, nat>, a: Path, b: Path)
    requires a in dir && a != b
    ensures b !in dir ==> forall j :: |Names((dir - {a})[b := dir[a]], j)| == |Names(dir, j)|
    ensures b in dir && dir[b] != dir[a] ==> forall j ::
      |Names((dir - {a})[b := dir[a]], j)| == |Names(dir, j)| - (if j == dir[b] then 1 else 0)
  {
    var d := dir - {a};
    CountDrop(dir, a);
    if b in dir {
      CountDrop(d, b);
      CountAdd(d - {b}, b, dir[a]);
      assert (d - {b})[b := dir[a]] == d[b := dir[a]];
    } else {
      CountAdd(d, b, dir[a]);
    }
  }

  lemma MovedCounted(fs: FS, a: Path, b: Path, mid: FS)
    requires WF(fs) && a in fs.dir && b in fs.dir && fs.dir[a] != fs.dir[b] && mid == Move(fs, a, b)
    ensures Counted(mid.dir, mid.inodes)
  {
    CountMove(fs.dir, a, b);
  }

  lemma MoveKeepsWF(fs: FS, a: Path, b: Path, mid: FS)
    requires WF(fs) && a in fs.dir && b in fs.dir && fs.dir[a] != fs.dir[b] && mid == Move(fs, a, b)
    ensures WFBut(mid, {fs.dir[b]})
  {
    MovedCounted(fs, a, b, mid);
  }

  lemma MovedContents(fs: FS, a: Path, b: Path, mid: FS)
    requires a in fs.dir && mid == Move(fs, a, b)
    ensures Contents(mid) == (Contents(fs) - {a})[b := Contents(fs)[a]]
  {
  }

  /** Renaming onto a name of another file. */
  lemma RenameEffect(fs: FS, a: Path, b: Path) returns (fs': FS)
    requires WF(fs) && a in fs.dir && b in fs.dir && fs.dir[a] != fs.dir[b]
    ensures Rename(fs, a, b) == Some(fs')
    ensures WF(fs')
    ensures fs'.dir == (fs.dir - {a})[b := fs.dir[a]] && fs'.fds == fs.fds && fs'.folders == fs.folders
      && fs'.dev == fs.dev
    ensures Contents(fs') == (Contents(fs) - {a})[b := Contents(fs)[a]]
  {
    var mid := Move(fs, a, b);
    MoveKeepsWF(fs, a, b, mid);
    MovedContents(fs, a, b, mid);
    ReapEffect(mid, fs.dir[b]);
    fs' := Reap(mid, fs.dir[b]);
  }

  /** Renaming to a name that is not in use. */
  lemma RenameToNewEffect(fs: FS, a: Path, b: Path) returns (fs': FS)
    requires WF(fs) && a in fs.dir && b !in fs.dir && b !in fs.folders
    ensures Rename(fs, a, b) == Some(fs')
    ensures WF(fs')
    ensures fs'.dir == (fs.dir - {a})[b := fs.dir[a]] && fs'.fds == fs.fds && fs'.folders == fs.folders
      && fs'.dev == fs.dev
    ensures Contents(fs') == (Contents(fs) - {a})[b := Contents(fs)[a]]
  {
    fs' := Move(fs, a, b);
    CountMove(fs.dir, a, b);
    MovedContents(fs, a, b, fs');
  }

  lemma OpenCreateCounted(fs: FS, p: Path, ino: nat)
    requires WF(fs) && p !in fs.dir && ino !in fs.inodes
    ensures Counted(fs.dir[p := ino], fs.inodes[ino := Inode([], 1)])
    ensures Private(fs.dir[p := ino], p)
  {
    CountAdd(fs.dir, p, ino);
    NoNames(fs.dir, ino);
  }

  lemma OpenedGrows(fds: map<nat, nat>, fd: nat, i: nat, j: nat)
    requires fd !in fds && Opened(fds, j)
    ensures Opened(fds[fd := i], j)
  {
    var g :| g in fds && fds[g] == j;
    assert fds[fd := i][g] == j;
  }

  lemma OpenCreateEffect(fs: FS, p: Path, fd: nat, ino: nat) returns (fs': FS)
    requires WF(fs) && p !in fs.folders && p !in fs.dir && ino !in fs.inodes && fd !in fs.fds
    ensures OpenCreate(fs, p, fd, ino) == Some(fs')
    ensures WF(fs')
    ensures fs'.dir == fs.dir[p := ino] && fs'.fds == fs.fds[fd := ino] && fs'.folders == fs.folders
      && fs'.dev == fs.dev
    ensures Contents(fs') == Contents(fs)[p := []] && Private(fs'.dir, p)
  {
    hide Opened;
    fs' := OpenCreate(fs, p, fd, ino).value;
    OpenCreateCounted(fs, p, ino);
    forall j | Opened(fs.fds, j) ensures Opened(fs'.fds, j) {
      OpenedGrows(fs.fds, fd, ino, j);
    }
  }

  lemma ReadOpenEffect(fs: FS, p: Path, fd: nat) returns (fs': FS)
    requires WF(fs) && p in fs.dir && fd !in fs.fds
    ensures Open(fs, p, fd, false) == Some(fs')
    ensures WF(fs')
    ensures fs'.dir == fs.dir && fs'.fds == fs.fds[fd := fs.dir[p]] && fs'.folders == fs.folders && fs'.dev == fs.dev
    ensures Contents(fs') == Contents(fs)
  {
    fs' := Open(fs, p, fd, false).value;
    forall j | Opened(fs.fds, j) ensures Opened(fs'.fds, j) {
      OpenedGrows(fs.fds, fd, fs.dir[p], j);
    }
  }

  lemma CloseEffect(fs: FS, fd: nat) returns (fs': FS)
    requires WF(fs)
    ensures fs' == Close(fs, fd)
    ensures WF(fs')
    ensures fs'.dir == fs.dir && fs'.fds == fs.fds - {fd} && fs'.folders == fs.folders && fs'.dev == fs.dev
    ensures Contents(fs') == Contents(fs)
  {
    if fd in fs.fds {
      var mid := fs.(fds := fs.fds - {fd});
      forall j | Opened(fs.fds, j) && j != fs.fds[fd] ensures Opened(mid.fds, j) {
        var g :| g in fs.fds && fs.fds[g] == j;
        assert g in mid.fds && mid.fds[g] == j;
      }
      ReapEffect(mid, fs.fds[fd]);
      fs' := Reap(mid, fs.fds[fd]);
    } else {
      fs' := fs;
      assert fs.fds - {fd} == fs.fds;
    }
  }

  lemma PwriteContents(fs: FS, i: nat, bytes: Bytes, p: Path)
    requires Private(fs.dir, p) && fs.dir[p] == i && i in fs.inodes
    ensures Contents(fs.(inodes := fs.inodes[i := Inode(bytes, fs.inodes[i].nlink)])) == Contents(fs)[p := bytes]
  {
  }

  lemma PwriteEffect(fs: FS, fd: nat, off: nat, data: Bytes, p: Path) returns (fs': FS)
    requires WF(fs) && fd in fs.fds && Private(fs.dir, p) && fs.dir[p] == fs.fds[fd]
    ensures Pwrite(fs, fd, off, data) == Some(fs')
    ensures WF(fs')
    ensures fs'.dir == fs.dir && fs'.fds == fs.fds && fs'.folders == fs.folders && fs'.dev == fs.dev
    ensures Contents(fs') == Contents(fs)[p := Splice(Contents(fs)[p], off, data)]
  {
    fs' := Pwrite(fs, fd, off, data).value;
    PwriteContents(fs, fs.fds[fd], Splice(Contents(fs)[p], off, data), p);
  }

  /** Sequential appends are what Splice is in a write-once run. */
  lemma SpliceAppends(was: Bytes, data: Bytes)
    ensures Splice(was, |was|, data) == was + data
  {
  }

  lemma RestartEffect(fs: FS, gone: set<Path>) returns (fs': FS)
    requires WF(fs)
    ensures fs' == RestartWithout(fs, gone)
    ensures WF(fs')
    ensures fs'.dir == fs.dir - gone && fs'.fds == map[] && fs'.folders == fs.folders - gone && fs'.dev == fs.dev
    ensures Contents(fs') == Contents(fs) - gone
  {
    fs' := RestartWithout(fs, gone);
    forall p | p in fs'.dir ensures fs'.dir[p] in fs'.inodes {
      assert p in Names(fs'.dir, fs'.dir[p]);
    }
    forall i | i in fs'.inodes ensures fs'.inodes[i].nlink > 0 {
      assert Names(fs'.dir, i) != {};
    }
    assert Contents(fs') == Contents(fs) - gone;
  }

  lemma Survivor(fs: FS, p: Path, fs1: FS, dir: map<Path, nat>, i: nat)
    requires WF(fs) && Unlink(fs, p) == Some(fs1) && WF(fs1)
    requires dir.Keys <= fs1.dir.Keys && (forall q | q in dir :: dir[q] == fs1.dir[q]) && Names(dir, i) != {}
    ensures i in fs.inodes && i in fs1.inodes && fs1.inodes[i].bytes == fs.inodes[i].bytes
  {
    var q :| q in Names(dir, i);
    assert fs1.dir[q] == i;
  }

  /** Deleting behind OptiFS's back is nothing but unlinking the names one at a time, in any order. */
  lemma RestartIsUnlinking(fs: FS, p: Path, gone: set<Path>, fs1: FS)
    requires WF(fs) && Unlink(fs, p) == Some(fs1) && WF(fs1)
    ensures RestartWithout(fs, gone + {p}).inodes == RestartWithout(fs1, gone).inodes
    ensures RestartWithout(fs, gone + {p}) == RestartWithout(fs1, gone)
  {
    hide Names, Counted;
    var dir := fs.dir - (gone + {p});
    assert fs1.dir - gone == dir && fs1.folders - gone == fs.folders - (gone + {p});
    forall i | Names(dir, i) != {}
      ensures i in fs.inodes && i in fs1.inodes && fs1.inodes[i].bytes == fs.inodes[i].bytes
    {
      Survivor(fs, p, fs1, dir, i);
    }
  }

  // ---------- folders ----------

  /** Two folders, neither in the other. */
  predicate Unrelated(a: Path, b: Path) { a != b && !Below(a, b) && !Below(b, a) }

  /** Where names go when a folder is renamed: what was a or below it is b or below it, nothing else is, and the
      way back is the way. */
  lemma RelocatedThere(q: Path, a: Path, b: Path)
    requires Unrelated(a, b) && q != b && !Below(q, b)
    ensures Relocated(Relocated(q, a, b), b, a) == q
    ensures Relocated(q, a, b) != a && !Below(Relocated(q, a, b), a)
  {
    if q == a || Below(q, a) {
      var t := b + q[|a|..];
      assert t[..|b|] == b && t[|b|..] == q[|a|..] && a + q[|a|..] == q;
      assert q != a ==> t[|b|] == 47;
    }
  }

  lemma RenamedFolder(fs: FS, a: Path, b: Path, fs': FS)
    requires RenameFolder(fs, a, b) == Some(fs') && a != b
    ensures Unrelated(a, b) && forall q | q in fs.dir || q in fs.folders :: q == b || (q != b && !Below(q, b))
    ensures forall q | q in fs.dir :: Get(fs'.dir, Relocated(q, a, b)) == Some(fs.dir[q])
    ensures forall q | q in fs'.dir :: Relocated(q, b, a) in fs.dir && Relocated(Relocated(q, b, a), a, b) == q
    ensures fs'.folders == (set x | x in fs.folders :: Relocated(x, a, b)) && b in fs'.folders
  {
    forall q | q in fs.dir ensures Get(fs'.dir, Relocated(q, a, b)) == Some(fs.dir[q]) {
      RelocatedThere(q, a, b);
    }
    forall q | q in fs'.dir ensures Relocated(q, b, a) in fs.dir && Relocated(Relocated(q, b, a), a, b) == q {
      var x :| x in fs.dir && q == Relocated(x, a, b);
      RelocatedThere(x, a, b);
    }
    assert Relocated(a, a, b) == b + a[|a|..] == b;
  }

  /** Two sets between which f and g go back and forth. */
  lemma {:induction false} SameSize(s: set<Path>, t: set<Path>, f: Path -> Path, g: Path -> Path)
    requires forall x | x in s :: f(x) in t && g(f(x)) == x
    requires forall y | y in t :: g(y) in s && f(g(y)) == y
    ensures |s| == |t|
  {
    if s == {} {
      assert forall y | y in t :: g(y) in s;
      assert t == {};
    } else {
      var x :| x in s;
      SameSize(s - {x}, t - {f(x)}, f, g);
    }
  }

  /** Relabelling the names keeps a tree well-formed. */
  lemma RelabelledTree(fs: FS, fs': FS, f: Path -> Path, g: Path -> Path)
    requires WF(fs) && fs' == fs.(dir := fs'.dir, folders := fs'.folders) && fs'.dir.Keys !! fs'.folders
    requires forall q | q in fs.dir :: Get(fs'.dir, f(q)) == Some(fs.dir[q]) && g(f(q)) == q
    requires forall q | q in fs'.dir :: g(q) in fs.dir && f(g(q)) == q
    ensures WF(fs')
  {
    forall i ensures |Names(fs'.dir, i)| == |Names(fs.dir, i)| {
      forall q | q in Names(fs.dir, i) ensures f(q) in Names(fs'.dir, i) && g(f(q)) == q {
      }
      forall q | q in Names(fs'.dir, i) ensures g(q) in Names(fs.dir, i) && f(g(q)) == q {
        assert Get(fs'.dir, f(g(q))) == Some(fs.dir[g(q)]);
      }
      SameSize(Names(fs.dir, i), Names(fs'.dir, i), f, g);
    }
    forall q | q in fs'.dir ensures fs'.dir[q] in fs'.inodes {
      assert Get(fs'.dir, f(g(q))) == Some(fs.dir[g(q)]);
    }
  }

  lemma RenameFolderKeepsWF(fs: FS, a: Path, b: Path, fs': FS)
    requires WF(fs) && RenameFolder(fs, a, b) == Some(fs')
    ensures WF(fs')
  {
    hide Contents;
    if a != b {
      RenamedFolder(fs, a, b, fs');
      forall q | q in fs.dir ensures Relocated(Relocated(q, a, b), b, a) == q {
        RelocatedThere(q, a, b);
      }
      forall q | q in fs'.dir ensures q !in fs'.folders {
        if q in fs'.folders {
          var x :| x in fs.folders && q == Relocated(x, a, b);
          if x != b {
            RelocatedThere(x, a, b);
          }
        }
      }
      RelabelledTree(fs, fs', q => Relocated(q, a, b), q => Relocated(q, b, a));
    }
  }

  lemma SwappedTwice(q: Path, a: Path, b: Path)
    requires !Below(a, b) && !Below(b, a)
    ensures Swapped(Swapped(q, a, b), a, b) == q
  {
    if q == a || Below(q, a) {
      var t := b + q[|a|..];
      assert t[..|b|] == b && t[|b|..] == q[|a|..] && a + q[|a|..] == q;
      assert q != a ==> t[|b|] == 47;
    } else if q == b || Below(q, b) {
      var t := a + q[|b|..];
      assert t[..|a|] == a && t[|a|..] == q[|b|..] && b + q[|b|..] == q;
      assert q != b ==> t[|a|] == 47;
    }
  }

  /** Names that change places: the tree stays well-formed, and doing it again undoes it. */
  lemma ExchangeTwice(fs: FS, a: Path, b: Path) returns (fs': FS)
    requires WF(fs) && Exchange(fs, a, b).Some?
    ensures Exchange(fs, a, b) == Some(fs') && WF(fs') && Exchange(fs', a, b) == Some(fs)
    ensures forall q | q in fs.dir :: Get(fs'.dir, Swapped(q, a, b)) == Some(fs.dir[q])
    ensures fs'.folders == set x | x in fs.folders :: Swapped(x, a, b)
  {
    fs' := Exchange(fs, a, b).value;
    assert fs.dir.Keys !! fs.folders;
    hide WF;
    ExchangedNames(fs, a, b, fs');
    RelabelledTree(fs, fs', q => Swapped(q, a, b), q => Swapped(q, a, b));
    ExchangeableAgain(fs, a, b, fs');
    hide Exchange, Swapped;
    ExchangedNames(fs', a, b, Exchange(fs', a, b).value);
    SameAgain(fs, a, b, fs', Exchange(fs', a, b).value);
  }

  lemma ExchangeableAgain(fs: FS, a: Path, b: Path, fs': FS)
    requires Exchange(fs, a, b) == Some(fs') && fs.dir.Keys !! fs.folders
    ensures Exchange(fs', a, b).Some?
  {
    ExchangedNames(fs, a, b, fs');
    SwappedEnds(a, b);
  }

  lemma SwappedEnds(a: Path, b: Path)
    requires !Below(a, b) && !Below(b, a)
    ensures Swapped(a, a, b) == b && Swapped(b, a, b) == a
  {
    assert b + a[|a|..] == b && a + b[|b|..] == a;
  }

  lemma ExchangedNames(fs: FS, a: Path, b: Path, fs': FS)
    requires Exchange(fs, a, b) == Some(fs') && fs.dir.Keys !! fs.folders
    ensures forall q :: Swapped(Swapped(q, a, b), a, b) == q
    ensures forall q | q in fs.dir :: Get(fs'.dir, Swapped(q, a, b)) == Some(fs.dir[q])
    ensures forall q | q in fs'.dir :: Swapped(q, a, b) in fs.dir
    ensures fs'.folders == (set x | x in fs.folders :: Swapped(x, a, b)) && fs'.dir.Keys !! fs'.folders
    ensures fs' == fs.(dir := fs'.dir, folders := fs'.folders)
  {
    forall q ensures Swapped(Swapped(q, a, b), a, b) == q {
      SwappedTwice(q, a, b);
    }
  }

  lemma SameAgain(fs: FS, a: Path, b: Path, fs': FS, back: FS)
    requires forall q :: Swapped(Swapped(q, a, b), a, b) == q
    requires forall q | q in fs.dir :: Get(fs'.dir, Swapped(q, a, b)) == Some(fs.dir[q])
    requires forall q | q in fs'.dir ::
      Swapped(q, a, b) in fs.dir && Get(back.dir, Swapped(q, a, b)) == Some(fs'.dir[q])
    requires forall q | q in back.dir :: Swapped(q, a, b) in fs'.dir
    requires fs'.folders == (set x | x in fs.folders :: Swapped(x, a, b))
    requires back.folders == (set x | x in fs'.folders :: Swapped(x, a, b))
    requires fs' == fs.(dir := fs'.dir, folders := fs'.folders)
      && back == fs'.(dir := back.dir, folders := back.folders)
    ensures back == fs
  {
    forall q | q in fs.dir ensures Get(back.dir, q) == Some(fs.dir[q]) {
      assert Get(fs'.dir, Swapped(q, a, b)) == Some(fs.dir[q]);
    }
    forall q | q in back.dir ensures q in fs.dir {
      assert Swapped(q, a, b) in fs'.dir;
    }
    assert back.dir == fs.dir;
    forall q | q in fs.folders ensures q in back.folders {
      assert Swapped(q, a, b) in fs'.folders;
    }
  }

  lemma NothingBelowAnyMore(fs: FS, a: Path, b: Path, fs': FS)
    requires RenameFolder(fs, a, b) == Some(fs') && a != b
    ensures !HasBelow(fs', a) && a !in fs'.dir && a !in fs'.folders
  {
    RenamedFolder(fs, a, b, fs');
    forall q | q in fs'.dir ensures q != a && !Below(q, a) {
      var x := Relocated(q, b, a);
      RelocatedThere(x, a, b);
    }
    forall q | q in fs'.folders ensures q != a && !Below(q, a) {
      var x :| x in fs.folders && q == Relocated(x, a, b);
      if x != b {
        RelocatedThere(x, a, b);
      }
    }
  }

  /** Renaming a folder to a free name takes every name in it along with its file, and renaming it back restores
      the tree. */
  lemma RenameFolderBack(fs: FS, a: Path, b: Path) returns (fs': FS)
    requires RenameFolder(fs, a, b).Some? && b !in fs.folders && a != b
    ensures RenameFolder(fs, a, b) == Some(fs') && RenameFolder(fs', b, a) == Some(fs)
    ensures forall q | q in fs.dir :: Get(fs'.dir, Relocated(q, a, b)) == Some(fs.dir[q])
    ensures fs'.inodes == fs.inodes
  {
    fs' := RenameFolder(fs, a, b).value;
    RenamedFolder(fs, a, b, fs');
    NothingBelowAnyMore(fs, a, b, fs');
    assert RenameFolder(fs', b, a).Some?;
    RenamedFolder(fs', b, a, RenameFolder(fs', b, a).value);
    var back := RenameFolder(fs', b, a).value;
    forall q | q in fs.dir || q in fs.folders ensures Relocated(Relocated(q, a, b), b, a) == q {
      RelocatedThere(q, a, b);
    }
    forall q | q in fs.dir ensures Get(back.dir, q) == Some(fs.dir[q]) {
      assert Get(fs'.dir, Relocated(q, a, b)) == Some(fs.dir[q]);
    }
    forall q | q in back.dir ensures q in fs.dir {
      assert Relocated(q, a, b) in fs'.dir;
    }
    assert back.dir == fs.dir && back.folders == fs.folders;
  }
}
