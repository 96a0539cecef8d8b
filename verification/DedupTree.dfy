/** What the link, lstat, rename and spare-file steps of a duplicate Release do to the underlying tree. */
module DedupTree {
  import opened Basics
  import opened StoreModel
  import opened Underlying
  import opened Session
  import opened SequentialRuns

  /** Well-formed, and no reader or name can tell the difference. */
  ghost predicate SameTree(fs: FS, fs': FS) {
    && WF(fs') && fs'.dir == fs.dir && Contents(fs') == Contents(fs)
    && fs'.fds == fs.fds && fs'.folders == fs.folders && fs'.dev == fs.dev
  }

  predicate Unused(fs: FS, p: Path) { p !in fs.dir && p !in fs.folders }

  lemma LinkThenScratch(fs: FS, a: Path, tmp: Path)
    requires WF(fs) && Unused(fs, tmp) && a in fs.dir
    ensures Link(fs, a, tmp).Some? && SameTree(fs, Scratch(Link(fs, a, tmp).value, tmp, true))
  {
    var linked := LinkEffect(fs, a, tmp);
    var undone := UnlinkEffect(linked, tmp);
    PutThenDrop(fs.dir, tmp, fs.dir[a]);
    PutThenDrop(Contents(fs), tmp, Contents(fs)[a]);
  }

  /** A duplicate Release that gives up leaves the tree as it found it. */
  lemma GivingUpKeepsTree(s: Sys, p: Path, h: Hash, ref: nat, rec: Option<Meta>, was: Option<Meta>, owner: Owner,
                          o: Env)
    requires WF(s.fs) && Unused(s.fs, TmpPath(p)) && o.tmpUnlinkOk
    requires GivesUp(s, p, rec, o)
    ensures SameTree(s.fs, ReleaseDuplicate(s, p, h, ref, rec, was, owner, o).sys.fs)
  {
    if rec.Some? && rec.value.path in s.fs.dir {
      LinkThenScratch(s.fs, rec.value.path, TmpPath(p));
    }
  }

  /** Linking a copy and renaming the link over p redirects p and changes nothing else. */
  lemma ReplaceByLink(fs: FS, q: Path, p: Path, tmp: Path) returns (fs': FS)
    requires WF(fs) && Unused(fs, tmp) && q in fs.dir && p in fs.dir && fs.dir[p] != fs.dir[q]
    ensures Link(fs, q, tmp).Some? && Rename(Link(fs, q, tmp).value, tmp, p) == Some(fs')
    ensures WF(fs') && fs'.dir == fs.dir[p := fs.dir[q]]
    ensures fs'.fds == fs.fds && fs'.folders == fs.folders && fs'.dev == fs.dev
    ensures Contents(fs') == Contents(fs)[p := Contents(fs)[q]]
  {
    var linked := LinkEffect(fs, q, tmp);
    fs' := RenameEffect(linked, tmp, p);
    PutThenDrop(fs.dir, tmp, fs.dir[q]);
    PutThenDrop(Contents(fs), tmp, Contents(fs)[q]);
  }

  /** The spare file comes and goes. */
  lemma SpareKeepsTree(fs: FS, spare: Path, fd: nat, ino: nat)
    requires WF(fs) && Unused(fs, spare) && fd !in fs.fds && ino !in fs.inodes
    ensures OpenCreate(fs, spare, fd, ino).Some?
    ensures var fs1 := Close(OpenCreate(fs, spare, fd, ino).value, fd);
      spare in fs1.dir && fs1.dir == fs.dir[spare := ino] && WF(fs1) && SameTree(fs, Scratch(fs1, spare, true))
  {
    var made := OpenCreateEffect(fs, spare, fd, ino);
    var closed := CloseEffect(made, fd);
    var gone := UnlinkEffect(closed, spare);
    PutThenDrop(fs.dir, spare, ino);
    PutThenDrop(fs.fds, fd, ino);
    PutThenDrop(Contents(fs), spare, []);
  }

  lemma FinishKeepsTree(s: Sys, p: Path, h: Hash, ref: nat, st: Stat, owner: Owner, o: Env)
    requires WF(s.fs) && Unused(s.fs, SparePath(p)) && o.spareUnlinkOk
    requires o.spareFd !in s.fs.fds && o.spareIno !in s.fs.inodes
    ensures SameTree(s.fs, FinishDuplicate(s, p, h, ref, st, None, owner, o).sys.fs)
  {
    SpareKeepsTree(s.fs, SparePath(p), o.spareFd, o.spareIno);
  }
}
