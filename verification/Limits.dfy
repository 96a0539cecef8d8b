/** Outside write-once runs: the exact conditions under which a file that is rewritten, renamed or hard-linked
    keeps what the code promises it. `Counterexamples` has the runs in which they fail. */
module Limits {
  import opened Basics
  import opened StoreModel
  import opened Underlying
  import opened Session
  import opened SequentialRuns
  import opened DedupTree
  import opened WriteOnce
  import opened WriteOnceSteps
  import opened WriteOnceRelease
  import opened Transparency
  import opened Sharing
  import opened Counting
  import opened Recovery
  import opened AttributeMaps
  import opened Uniqueness
  import opened CallEffects

  // ---------- writing in place ----------

  /** What the inode holds once a Write through fd has landed. */
  function Landed(s: Sys, fd: nat, data: Bytes, off: nat, written: Option<nat>): Bytes
    requires Lands(s, fd, data, written)
  {
    Splice(At(s.fs, s.fs.fds[fd]).bytes, off, data[..written.value])
  }

  lemma WriteShows(H: Hasher, s: Sys, fd: nat, p: Path, data: Bytes, off: nat, caller: Option<Owner>,
                   written: Option<nat>, now: Timespec)
    ensures var fs' := Write(H, s, fd, p, data, off, caller, written, now).sys.fs;
      && fs'.dir == s.fs.dir
      && forall q | q in s.fs.dir ::
           Contents(fs')[q] == if Lands(s, fd, data, written) && s.fs.dir[q] == s.fs.fds[fd]
                               then Landed(s, fd, data, off, written) else Contents(s.fs)[q]
  {
    hide UpdateTime, Splice;
  }

  /** In any state: which names a Write through fd shows changed. All that lead to the descriptor's inode, unless
      it fails or the bytes are there already; so every name but p shows what it showed before if and only if
      one of these holds or p's descriptor has its inode to itself. */
  lemma WriteReachesLinks(H: Hasher, s: Sys, fd: nat, p: Path, data: Bytes, off: nat, caller: Option<Owner>,
                          written: Option<nat>, now: Timespec)
    ensures var fs' := Write(H, s, fd, p, data, off, caller, written, now).sys.fs;
      var same := !Lands(s, fd, data, written) ||
        Splice(At(s.fs, s.fs.fds[fd]).bytes, off, data[..written.value]) == At(s.fs, s.fs.fds[fd]).bytes;
      && fs'.dir == s.fs.dir
      && (forall q | q in s.fs.dir ::
            Contents(fs')[q] == Contents(s.fs)[q] <==> same || s.fs.dir[q] != s.fs.fds[fd])
      && ((forall q | q in s.fs.dir && q != p :: Contents(fs')[q] == Contents(s.fs)[q])
          <==> same || forall q | q in s.fs.dir && q != p :: s.fs.dir[q] != s.fs.fds[fd])
  {
    hide Write, Splice;
    WriteShows(H, s, fd, p, data, off, caller, written, now);
  }

  /** The same for opening with O_TRUNC: it empties every name of p's inode. */
  lemma TruncationReachesLinks(s: Sys, p: Path, fd: nat, writing: bool, trunc: bool, ok: bool)
    ensures var fs' := OpenFile(s, p, fd, writing, trunc, ok).sys.fs;
      var same := !ok || p !in s.fs.dir || !trunc || At(s.fs, s.fs.dir[p]).bytes == [];
      && fs'.dir == s.fs.dir
      && (forall q | q in s.fs.dir ::
            Contents(fs')[q] == Contents(s.fs)[q] <==> same || s.fs.dir[q] != s.fs.dir[p])
      && ((forall q | q in s.fs.dir && q != p :: Contents(fs')[q] == Contents(s.fs)[q])
          <==> same || forall q | q in s.fs.dir && q != p :: s.fs.dir[q] != s.fs.dir[p])
  {
    var fs' := OpenFile(s, p, fd, writing, trunc, ok).sys.fs;
    forall q | q in s.fs.dir
      ensures Contents(fs')[q] == if ok && p in s.fs.dir && trunc && s.fs.dir[q] == s.fs.dir[p] then []
                                  else Contents(s.fs)[q]
    {
    }
  }

  lemma OpensInPlace(s: Sys, p: Path, fd: nat)
    requires p in s.fs.dir
    ensures var s' := OpenFile(s, p, fd, true, false, true).sys;
      && s'.fs.dir == s.fs.dir && Contents(s'.fs) == Contents(s.fs) && s'.fs.inodes == s.fs.inodes
      && fd in s'.handles && Get(s'.fs.fds, fd) == Some(s.fs.dir[p])
  {
  }

  /** What this means after a clean run: opening a released file that is not empty and writing to it changes
      another user's file if and only if that file was written by the same blocks, and the write changes any. */
  lemma RewriteReachesCopies(H: Hasher, es: seq<Event>, p: Path, q: Path, fd: nat, data: Bytes, off: nat,
                             caller: Option<Owner>, now: Timespec)
    requires CleanRun(H, es) && IsClosed(HistAfter(H, es), p) && HistAfter(H, es).blocks[p] != []
    requires p in PlainAfter(es) && q in PlainAfter(es) && q != p
    ensures var s, k, f := After(H, es), HistAfter(H, es), PlainAfter(es);
      var s1 := OpenFile(s, p, fd, true, false, true).sys;
      var fs' := Write(H, s1, fd, p, data, off, caller, Some(|data|), now).sys.fs;
      && q in fs'.dir && q in k.blocks
      && (Contents(fs')[q] != f[q]
          <==> IsClosed(k, q) && k.blocks[q] == k.blocks[p] && Splice(f[p], off, data) != f[p])
  {
    hide Respond, Contents, Splice;
    var s := After(H, es);
    DeduplicationIsInvisible(H, es);
    assert p in Contents(s.fs) && q in Contents(s.fs) && p in s.fs.dir && q in s.fs.dir by { ContentsKeys(s.fs); }
    OneInodePerContent(H, es, p, q);
    OpensInPlace(s, p, fd);
    var s1 := OpenFile(s, p, fd, true, false, true).sys;
    assert data[..|data|] == data;
    assert At(s1.fs, s.fs.dir[p]).bytes == Contents(s.fs)[p] by { ContentsAt(s.fs, p); }
    WriteReachesLinks(H, s1, fd, p, data, off, caller, Some(|data|), now);
  }

  lemma ContentsKeys(fs: FS)
    ensures Contents(fs).Keys == fs.dir.Keys
  {
  }

  lemma ContentsAt(fs: FS, p: Path)
    requires p in fs.dir
    ensures p in Contents(fs) && Contents(fs)[p] == At(fs, fs.dir[p]).bytes
  {
  }

  // ---------- a record that names the wrong file ----------

  /** What link and rename leave: p shows what q shows; but if they are links to one file, rename() does nothing
      and the temporary name stays. */
  ghost function LinkedOverShows(fs: FS, q: Path, p: Path): map<Path, Bytes>
    requires q in fs.dir
  {
    if p in fs.dir && fs.dir[p] == fs.dir[q] then Contents(fs)[TmpPath(p) := Contents(fs)[q]]
    else Contents(fs)[p := Contents(fs)[q]]
  }

  lemma LinkAndRename(fs: FS, q: Path, p: Path) returns (renamed: FS)
    requires WF(fs) && Unused(fs, TmpPath(p)) && Link(fs, q, TmpPath(p)).Some?
    requires Rename(Link(fs, q, TmpPath(p)).value, TmpPath(p), p).Some?
    ensures Rename(Link(fs, q, TmpPath(p)).value, TmpPath(p), p) == Some(renamed) && WF(renamed)
    ensures renamed.dir.Keys <= fs.dir.Keys + {p, TmpPath(p)} && renamed.folders == fs.folders
    ensures Contents(renamed) == LinkedOverShows(fs, q, p)
  {
    hide WF;
    ScratchNamesAreNotUserPaths(p);
    var linked := LinkEffect(fs, q, TmpPath(p));
    PutThenDrop(Contents(fs), TmpPath(p), Contents(fs)[q]);
    if p !in fs.dir {
      renamed := RenameToNewEffect(linked, TmpPath(p), p);
    } else if fs.dir[p] == fs.dir[q] {
      renamed := linked;
    } else {
      renamed := RenameEffect(linked, TmpPath(p), p);
    }
  }

  /** In any state: what a duplicate Release that gets past its rename shows. */
  lemma DuplicateShows(s: Sys, p: Path, h: Hash, ref: nat, rec: Meta, was: Option<Meta>, owner: Owner, o: Env)
    returns (renamed: FS)
    requires WF(s.fs) && Unused(s.fs, TmpPath(p)) && Unused(s.fs, SparePath(p)) && !GivesUp(s, p, Some(rec), o)
    requires o.spareUnlinkOk
    ensures Rename(Link(s.fs, rec.path, TmpPath(p)).value, TmpPath(p), p) == Some(renamed) && rec.path in s.fs.dir
    ensures o.spareFd !in renamed.fds && o.spareIno !in renamed.inodes ==>
      Contents(ReleaseDuplicate(s, p, h, ref, Some(rec), was, owner, o).sys.fs) == LinkedOverShows(s.fs, rec.path, p)
  {
    hide WF, Contents;
    ScratchNamesAreNotUserPaths(p);
    assert |SparePath(p)| == |p| + 8 && |TmpPath(p)| == |p| + 6;
    renamed := LinkAndRename(s.fs, rec.path, p);
    GoingOnFinishes(s, p, h, ref, Some(rec), was, owner, o);
    var linked := Link(s.fs, rec.path, TmpPath(p)).value;
    var st := StatOf(linked, linked.dir[TmpPath(p)], o.st);
    if o.spareFd !in renamed.fds && o.spareIno !in renamed.inodes && was.None? {
      FinishKeepsTree(s.(fs := renamed), p, h, ref, st, owner, o);
    }
  }

  /** What decides a Release with content that is known: the newest record of the content, and the state in
      which it sets about linking it. */
  ghost predicate GivesUpLinking(H: Hasher, s: Sys, fd: nat, p: Path, o: Env) {
    var h := FinalHash(H, s, p);
    GivesUp(TakenClosed(s, fd, p, h), p, NewestRecord(H, s, p), o)
  }

  function NewestRecord(H: Hasher, s: Sys, p: Path): Option<Meta> {
    Recent(CreateEntry(s.meta.files, FinalHash(H, s, p))[FinalHash(H, s, p)])
  }

  /** The Releases that put another name's file, or a temporary name, into the tree. */
  ghost predicate Links(H: Hasher, s: Sys, fd: nat, p: Path, o: Env) {
    && fd in s.handles && s.handles[fd].writing && !IsUnique(s.meta.files, FinalHash(H, s, p))
    && !GivesUpLinking(H, s, fd, p, o)
  }

  lemma LinksNames(H: Hasher, s: Sys, fd: nat, p: Path, o: Env)
    requires Links(H, s, fd, p, o)
    ensures NewestRecord(H, s, p).Some? && NewestRecord(H, s, p).value.path in s.fs.dir
  {
  }

  /** In any state, the whole of Release, with free scratch names, fresh numbers for the spare file and clean-ups
      that work: users see what they saw before if and only if nothing was open for writing, the content is new,
      linking gives up, or p exists, is not a link to the file that the newest record names, and that file holds
      p's bytes. Otherwise p shows that file, even if p had been unlinked; or a temporary name stays. */
  lemma ReleaseKeepsBytes(H: Hasher, s: Sys, fd: nat, p: Path, o: Env)
    requires WF(s.fs) && Unused(s.fs, TmpPath(p)) && Unused(s.fs, SparePath(p)) && o.tmpUnlinkOk && o.spareUnlinkOk
    requires o.spareFd !in SpareTree(H, s, fd, p).fds && o.spareIno !in SpareTree(H, s, fd, p).inodes
    ensures var fs', rec := Release(H, s, fd, p, o).sys.fs, NewestRecord(H, s, p);
      if !Links(H, s, fd, p, o) then Contents(fs') == Contents(s.fs)
      else
        && rec.Some? && rec.value.path in s.fs.dir && Contents(fs') == LinkedOverShows(s.fs, rec.value.path, p)
        && (Contents(fs') == Contents(s.fs)
            <==> p in s.fs.dir && s.fs.dir[p] != s.fs.dir[rec.value.path]
                 && Contents(s.fs)[rec.value.path] == Contents(s.fs)[p])
  {
    hide WF;
    var h, rec := FinalHash(H, s, p), NewestRecord(H, s, p);
    var fs2 := CloseEffect(s.fs, fd);
    if Links(H, s, fd, p, o) {
      LinksNames(H, s, fd, p, o);
      DuplicateBegins(H, s, fd, p, o, h);
      var t, r := TakenClosed(s, fd, p, h), ClaimedRef(s.meta.files, h);
      var renamed := DuplicateShows(t, p, h, r, rec.value, OldRecord(s, fd), BufferOwner(s, p), o);
      ShowsTheSame(s.fs, rec.value.path, p);
    } else {
      NothingLinked(H, s, fd, p, o);
    }
  }

  lemma ShowsTheSame(fs: FS, q: Path, p: Path)
    requires q in fs.dir && TmpPath(p) !in fs.dir
    ensures LinkedOverShows(fs, q, p) == Contents(fs)
      <==> p in fs.dir && fs.dir[p] != fs.dir[q] && Contents(fs)[q] == Contents(fs)[p]
  {
    var was, now := Contents(fs), LinkedOverShows(fs, q, p);
    if p !in fs.dir {
      assert p in now && p !in was;
    } else if fs.dir[p] == fs.dir[q] {
      assert TmpPath(p) in now && TmpPath(p) !in was;
    } else {
      assert now[p] == was[q] && was[p := was[p]] == was;
    }
  }

  lemma NothingLinked(H: Hasher, s: Sys, fd: nat, p: Path, o: Env)
    requires WF(s.fs) && Unused(s.fs, TmpPath(p)) && o.tmpUnlinkOk && !Links(H, s, fd, p, o)
    ensures Contents(Release(H, s, fd, p, o).sys.fs) == Contents(s.fs)
  {
    hide WF, Contents;
    var fs2 := CloseEffect(s.fs, fd);
    var h := FinalHash(H, s, p);
    if fd in s.handles && s.handles[fd].writing && !IsUnique(s.meta.files, h) {
      DuplicateBegins(H, s, fd, p, o, h);
      var t, r := TakenClosed(s, fd, p, h), ClaimedRef(s.meta.files, h);
      GivingUpKeepsTree(t, p, h, r, NewestRecord(H, s, p), OldRecord(s, fd), BufferOwner(s, p), o);
    }
  }

  // ---------- records that name their file ----------

  /** Where a file has a record with a name in it, it is the file's own. */
  ghost predicate Named(s: Store) {
    forall q | q in s.nodes && !s.nodes[q].isDir && MetaOf(s, q).Some? && MetaOf(s, q).value.path != [] ::
      MetaOf(s, q).value.path == q
  }

  ghost predicate HasName(s: Store, p: Path) {
    p in s.nodes && !s.nodes[p].isDir && MetaOf(s, p).Some? && MetaOf(s, p).value.path != []
  }

  lemma TouchKeepsNames(s: Store, dir: Path, now: Timespec)
    ensures Named(TouchDir(s, dir, now)) <==> Named(s)
  {
    var s' := TouchDir(s, dir, now);
    TouchDirFrame(s, dir, now);
    assert forall q | q in s.nodes && !s.nodes[q].isDir :: MetaOf(s', q) == MetaOf(s, q);
  }

  lemma RekeyNames(s: Store, a: Path, b: Path)
    requires Named(s) && a in s.nodes
    ensures Named(Rekey(s, a, b)) <==> a == b || !HasName(s, a)
  {
    var s' := Rekey(s, a, b);
    assert forall q | q in s'.nodes && q != b && !s'.nodes[q].isDir :: q in s.nodes && MetaOf(s', q) == MetaOf(s, q);
    assert s'.nodes[b].isDir == s.nodes[a].isDir;
    if !s.nodes[a].isDir {
      assert MetaOf(s', b) == MetaOf(s, a);
    }
  }

  /** A rename leaves every record with its owner's name if and only if it moves something without a named record,
      goes nowhere, or is refused by the kernel: the record keeps the old name. */
  lemma RenameKeepsNames(s: Sys, parentA: Path, a: Path, parentB: Path, b: Path, exchange: bool, ok: bool,
                         now: Timespec)
    requires Named(s.meta)
    ensures var r := RenamePath(s, parentA, a, parentB, b, exchange, ok, now);
      Named(r.sys.meta) <==>
        || !HasName(s.meta, a) || a == b || !ok || !Exchangeable(parentA, parentB, exchange)
        || Renamed(s.fs, a, b, s.meta.nodes[a].isDir, exchange).None?
  {
    if a in s.meta.nodes {
      var t := Rekey(s.meta, a, b);
      RekeyNames(s.meta, a, b);
      TouchKeepsNames(t, parentA, now);
      TouchKeepsNames(TouchDir(t, parentA, now), parentB, now);
      TouchKeepsNames(s.meta, parentA, now);
      TouchKeepsNames(TouchDir(s.meta, parentA, now), parentB, now);
    }
  }

  // ---------- entries that name nothing ----------

  /** The renames after which the old name, or a name below it, is still a name. */
  predicate LeavesOldNames(fs: FS, a: Path, b: Path, isDir: bool, exchange: bool) {
    if exchange then true
    else if isDir then HasBelow(fs, a)
    else a in fs.dir && b in fs.dir && fs.dir[b] == fs.dir[a]
  }

  lemma RekeyEntries(s: Store, a: Path, b: Path)
    requires a in s.nodes
    ensures Rekey(s, a, b).nodes.Keys == s.nodes.Keys - {a} + {b}
  {
  }

  lemma NamesOfFolder(fs: FS, a: Path, b: Path, fs': FS)
    requires RenameFolder(fs, a, b) == Some(fs') && a != b && fs.dir.Keys !! fs.folders
    ensures fs'.dir.Keys + fs'.folders == fs.dir.Keys + fs.folders - {a} + {b} <==> !HasBelow(fs, a)
  {
    hide RenameFolder, Relocated;
    if HasBelow(fs, a) {
      NothingBelowAnyMore(fs, a, b, fs');
      WasBelow(fs, a, fs');
    } else {
      NamesOfEmptyFolder(fs, a, b, fs');
    }
  }

  lemma WasBelow(fs: FS, a: Path, fs': FS)
    requires HasBelow(fs, a) && !HasBelow(fs', a)
    ensures forall b :: fs'.dir.Keys + fs'.folders != fs.dir.Keys + fs.folders - {a} + {b}
  {
    var q :| (q in fs.dir || q in fs.folders) && Below(q, a);
    assert Below(q, a);
    assert q !in fs'.dir && q !in fs'.folders;
    forall b ensures fs'.dir.Keys + fs'.folders != fs.dir.Keys + fs.folders - {a} + {b} {
      assert q in fs.dir.Keys + fs.folders - {a} + {b};
      assert q !in fs'.dir.Keys + fs'.folders;
    }
  }

  lemma FilesStay(fs: FS, a: Path, b: Path, fs': FS)
    requires RenameFolder(fs, a, b) == Some(fs') && a != b && a !in fs.dir && !HasBelow(fs, a)
    ensures fs'.dir.Keys == fs.dir.Keys
  {
    RenamedFolder(fs, a, b, fs');
    assert forall q | q in fs.dir :: q != a && !Below(q, a);
    forall q | q in fs'.dir ensures q in fs.dir {
      var x := Relocated(q, b, a);
      assert Relocated(x, a, b) == q && x in fs.dir;
    }
    forall q | q in fs.dir ensures q in fs'.dir {
      assert Get(fs'.dir, Relocated(q, a, b)) == Some(fs.dir[q]);
    }
  }

  lemma EmptyFolderMoves(folders: set<Path>, a: Path, b: Path)
    requires a in folders && forall q | q in folders :: !Below(q, a)
    ensures (set x | x in folders :: Relocated(x, a, b)) == folders - {a} + {b}
  {
    var all := set x | x in folders :: Relocated(x, a, b);
    assert b + a[|a|..] == b && Relocated(a, a, b) in all;
    forall q | q in folders - {a} ensures q in all {
      assert Relocated(q, a, b) == q;
    }
  }

  lemma FoldersAfter(fs: FS, a: Path, b: Path, fs': FS)
    requires RenameFolder(fs, a, b) == Some(fs') && a != b && !HasBelow(fs, a)
    ensures fs'.folders == fs.folders - {a} + {b}
  {
    hide Relocated;
    EmptyFolderMoves(fs.folders, a, b);
  }

  lemma OneMoves(files: set<Path>, folders: set<Path>, a: Path, b: Path)
    requires a !in files
    ensures files + (folders - {a} + {b}) == files + folders - {a} + {b}
  {
  }

  lemma NamesOfEmptyFolder(fs: FS, a: Path, b: Path, fs': FS)
    requires RenameFolder(fs, a, b) == Some(fs') && a != b && fs.dir.Keys !! fs.folders && !HasBelow(fs, a)
    ensures fs'.dir.Keys + fs'.folders == fs.dir.Keys + fs.folders - {a} + {b}
  {
    assert a in fs.folders && a !in fs.dir.Keys;
    FoldersAfter(fs, a, b, fs');
    FilesStay(fs, a, b, fs');
    OneMoves(fs.dir.Keys, fs.folders, a, b);
  }

  lemma NamesExchanged(fs: FS, a: Path, b: Path, fs': FS)
    requires Exchange(fs, a, b) == Some(fs') && fs.dir.Keys !! fs.folders
    ensures a in fs'.dir || a in fs'.folders
    ensures a == b ==> fs'.dir.Keys == fs.dir.Keys && fs'.folders == fs.folders
  {
    ExchangedNames(fs, a, b, fs');
    SwappedEnds(a, b);
    if a == b {
      forall q ensures Swapped(q, a, a) == q {
        SwappedSelf(q, a);
      }
    }
  }

  lemma SwappedSelf(q: Path, a: Path)
    ensures Swapped(q, a, a) == q
  {
    assert q == a || Below(q, a) ==> a + q[|a|..] == q;
  }

  lemma NamesMoved(fs: FS, a: Path, b: Path, fs': FS)
    requires Rename(fs, a, b) == Some(fs') && a != b && fs.dir.Keys !! fs.folders
    ensures fs'.dir.Keys + fs'.folders == fs.dir.Keys + fs.folders - {a} + {b} <==>
      !(b in fs.dir && fs.dir[b] == fs.dir[a])
  {
    var all := fs.dir.Keys + fs.folders - {a} + {b};
    assert a in fs.dir && a !in fs.folders && a !in all;
    if b in fs.dir && fs.dir[b] == fs.dir[a] {
      assert fs' == fs && a in fs'.dir.Keys + fs'.folders;
    } else {
      assert fs'.dir.Keys == fs.dir.Keys - {a} + {b} && fs'.folders == fs.folders;
    }
  }

  lemma NameStays(fs: FS, a: Path, isDir: bool, exchange: bool, fs': FS)
    requires Renamed(fs, a, a, isDir, exchange) == Some(fs') && fs.dir.Keys !! fs.folders
      && (a in fs.dir || a in fs.folders)
    ensures fs'.dir.Keys + fs'.folders == fs.dir.Keys + fs.folders - {a} + {a}
  {
    hide Below, Relocated, HasBelow, Exchange, Reap, Move;
    assert fs.dir.Keys + fs.folders - {a} + {a} == fs.dir.Keys + fs.folders;
    if exchange {
      NamesExchanged(fs, a, a, fs');
    }
  }

  /** A rename leaves entries for exactly the names that exist if and only if it is refused, goes nowhere, or moves
      one name: a file that is not a link to the target already, or a folder with nothing in it. The entries of
      names below a folder, and of the name that an exchange puts under the old one, are not moved. */
  lemma RenameKeepsEntries(s: Sys, parentA: Path, a: Path, parentB: Path, b: Path, exchange: bool, ok: bool,
                           now: Timespec)
    requires NodesMatchTree(s) && s.fs.dir.Keys !! s.fs.folders
    requires forall q | q in s.meta.nodes :: s.meta.nodes[q].isDir <==> q in s.fs.folders
    ensures NodesMatchTree(RenamePath(s, parentA, a, parentB, b, exchange, ok, now).sys) <==>
      || a !in s.meta.nodes || a == b || !ok || !Exchangeable(parentA, parentB, exchange)
      || Renamed(s.fs, a, b, s.meta.nodes[a].isDir, exchange).None?
      || !LeavesOldNames(s.fs, a, b, s.meta.nodes[a].isDir, exchange)
  {
    hide HasBelow, Below, Relocated, Swapped, Rekey, RenameFolder, Exchange, Rename;
    if a in s.meta.nodes {
      var isDir := s.meta.nodes[a].isDir;
      var out := Renamed(s.fs, a, b, isDir, exchange);
      RekeyEntries(s.meta, a, b);
      TouchDirFrame(s.meta, parentA, now);
      TouchDirFrame(TouchDir(s.meta, parentA, now), parentB, now);
      TouchDirFrame(Rekey(s.meta, a, b), parentA, now);
      TouchDirFrame(TouchDir(Rekey(s.meta, a, b), parentA, now), parentB, now);
      if out.Some? {
        TreeRenamed(s.fs, a, b, isDir, exchange, out.value);
      }
    }
  }

  lemma TreeRenamed(fs: FS, a: Path, b: Path, isDir: bool, exchange: bool, fs': FS)
    requires Renamed(fs, a, b, isDir, exchange) == Some(fs') && fs.dir.Keys !! fs.folders
    requires (a in fs.dir || a in fs.folders) && (isDir <==> a in fs.folders)
    ensures fs'.dir.Keys + fs'.folders == fs.dir.Keys + fs.folders - {a} + {b} <==>
      a == b || !LeavesOldNames(fs, a, b, isDir, exchange)
  {
    hide HasBelow, RenameFolder, Exchange, Rename;
    if a == b {
      NameStays(fs, a, isDir, exchange, fs');
    } else if exchange {
      NamesExchanged(fs, a, b, fs');
      assert a !in fs.dir.Keys + fs.folders - {a} + {b};
    } else if isDir {
      NamesOfFolder(fs, a, b, fs');
    } else {
      NamesMoved(fs, a, b, fs');
    }
  }

  /** What users see of renaming a file over another name: what they asked for, if and only if the two names are
      not links to one file yet; if they are, both stay. */
  lemma RenameShows(s: Sys, parentA: Path, a: Path, parentB: Path, b: Path, now: Timespec)
    requires WF(s.fs) && a in s.meta.nodes && !s.meta.nodes[a].isDir && a in s.fs.dir && b !in s.fs.folders && a != b
    ensures var s', f := RenamePath(s, parentA, a, parentB, b, false, true, now).sys, Contents(s.fs);
      && a !in s'.meta.nodes
      && (Contents(s'.fs) == (f - {a})[b := f[a]] <==> !(b in s.fs.dir && s.fs.dir[b] == s.fs.dir[a]))
      && (b in s.fs.dir && s.fs.dir[b] == s.fs.dir[a] ==> Contents(s'.fs) == f)
  {
    hide WF, Rekey;
    RekeyEntries(s.meta, a, b);
    TouchDirFrame(Rekey(s.meta, a, b), parentA, now);
    TouchDirFrame(TouchDir(Rekey(s.meta, a, b), parentA, now), parentB, now);
    assert a in Contents(s.fs);
    if b !in s.fs.dir {
      var fs' := RenameToNewEffect(s.fs, a, b);
    } else if s.fs.dir[b] != s.fs.dir[a] {
      var fs' := RenameEffect(s.fs, a, b);
    }
  }

  /** So after a clean run: renaming a file over another one shows what was asked for if and only if they are not
      copies. If they are, the old name stays, and without an entry. */
  lemma RenameOverCopy(H: Hasher, es: seq<Event>, parentA: Path, p: Path, parentB: Path, q: Path, now: Timespec)
    requires CleanRun(H, es) && p in PlainAfter(es) && q in PlainAfter(es) && p != q
    ensures var k, f := HistAfter(H, es), PlainAfter(es);
      var s' := RenamePath(After(H, es), parentA, p, parentB, q, false, true, now).sys;
      && p !in s'.meta.nodes && p in k.blocks && q in k.blocks
      && (Contents(s'.fs) == (f - {p})[q := f[p]] <==>
            !(IsClosed(k, p) && IsClosed(k, q) && k.blocks[p] != [] && k.blocks[p] == k.blocks[q]))
      && (IsClosed(k, p) && IsClosed(k, q) && k.blocks[p] != [] && k.blocks[p] == k.blocks[q] ==>
            Contents(s'.fs) == f)
  {
    hide Respond;
    var s, k := After(H, es), HistAfter(H, es);
    CleanRunsAreFull(H, es);
    DeduplicationIsInvisible(H, es);
    ContentsKeys(s.fs);
    assert PathOk(H, k.hashed, View(s, k, p), p) && PathOk(H, k.hashed, View(s, k, q), q);
    OneInodePerContent(H, es, p, q);
    RenameShows(s, parentA, p, parentB, q, now);
  }

  // ---------- records that a Release leaves ----------

  lemma DuplicateBegins(H: Hasher, s: Sys, fd: nat, p: Path, o: Env, h: Hash)
    requires fd in s.handles && s.handles[fd].writing && h == FinalHash(H, s, p) && !IsUnique(s.meta.files, h)
    ensures Release(H, s, fd, p, o)
         == ReleaseDuplicate(TakenClosed(s, fd, p, h), p, h, ClaimedRef(s.meta.files, h),
                             Recent(CreateEntry(s.meta.files, h)[h]),
                             OldRecord(s, fd), BufferOwner(s, p), o)
  {
  }

  lemma ForgetsRecord(s: Sys, p: Path, h: Hash, r: nat)
    requires FilesWF(s.meta.files) && h != ZERO && LocOf(s.meta, p) == Some(FileLoc(h, r))
    ensures MetaOf(Forget(s, h, r).meta, p).None?
  {
    RemoveLive(s.meta.files, h, r, h, r);
  }

  lemma DuplicateLeaves(s: Sys, p: Path, h: Hash, r: nat, rec: Option<Meta>, was: Option<Meta>, owner: Owner, o: Env)
    requires FilesWF(s.meta.files) && h != ZERO && LocOf(s.meta, p) == Some(FileLoc(h, r))
    requires Lookup(s.meta.files, h, r) == Some(DEFAULT_META) && p != []
    ensures var t := ReleaseDuplicate(s, p, h, r, rec, was, owner, o).sys.meta;
      && (MetaOf(t, p).Some? <==> !GivesUp(s, p, rec, o) && was.None?)
      && (HasName(t, p) && MetaOf(t, p).value.path == p
          <==> !GivesUp(s, p, rec, o) && was.None? && o.spareOk && SparePath(p) !in s.fs.folders && o.spareStatOk)
  {
    hide WF, FilesWF;
    ForgetsRecord(s, p, h, r);
    if GivesUp(s, p, rec, o) {
      GivingUpWithdraws(s, p, h, r, rec, was, owner, o);
    } else {
      GoingOnFinishes(s, p, h, r, rec, was, owner, o);
      var linked := Link(s.fs, rec.value.path, TmpPath(p)).value;
      FinishLeaves(s.(fs := Rename(linked, TmpPath(p), p).value), p, h, r,
                   StatOf(linked, linked.dir[TmpPath(p)], o.st), was, owner, o);
    }
  }

  lemma FinishLeaves(s: Sys, p: Path, h: Hash, r: nat, st: Stat, was: Option<Meta>, owner: Owner, o: Env)
    requires FilesWF(s.meta.files) && h != ZERO && LocOf(s.meta, p) == Some(FileLoc(h, r))
    requires Lookup(s.meta.files, h, r) == Some(DEFAULT_META) && p != []
    ensures var t := FinishDuplicate(s, p, h, r, st, was, owner, o).sys.meta;
      && (MetaOf(t, p).Some? <==> was.None?)
      && (HasName(t, p) && MetaOf(t, p).value.path == p
          <==> was.None? && o.spareOk && SparePath(p) !in s.fs.folders && o.spareStatOk)
  {
    ForgetsRecord(s, p, h, r);
    if was.None? && o.spareOk && SparePath(p) !in s.fs.folders && o.spareStatOk {
      var fs1 := Close(OpenCreate(s.fs, SparePath(p), o.spareFd, o.spareIno).value, o.spareFd);
      var spare := StatOf(fs1, fs1.dir[SparePath(p)], o.spareSt);
      FillDuplicateFresh(s.meta, h, r, spare, st, p, owner, o.now);
      var t := FillDuplicate(s.meta, FileLoc(h, r), spare, st, p, owner, o.now);
      assert LocOf(t, p) == LocOf(s.meta, p);
    }
  }

  lemma UniqueLeaves(s: Sys, fd: nat, p: Path, loc: Loc, was: Option<Meta>, owner: Owner, o: Env)
    requires loc.FileLoc? && LocOf(s.meta, p) == Some(loc) && MetaAt(s.meta, loc) == Some(DEFAULT_META) && p != []
    ensures var t := ReleaseUnique(s, fd, p, loc, was, owner, o).sys.meta;
      && MetaOf(t, p).Some?
      && (HasName(t, p) && MetaOf(t, p).value.path == p
          <==> o.fstatOk && fd in s.fs.fds && (was.Some? ==> was.value.path == p))
  {
    if o.fstatOk && fd in s.fs.fds {
      var st := StatOf(s.fs, s.fs.fds[fd], o.st);
      FillUniqueShape(s.meta, loc.h, loc.r, st, o.stable, p, was, owner, o.now);
      if was.None? {
        FillUniqueFresh(s.meta, loc.h, loc.r, st, o.stable, p, owner, o.now);
      } else {
        MigrateX(s.meta, loc, st, o.stable, p, was.value, owner, o.now);
      }
    }
  }

  lemma TakenFacts(s: Sys, fd: nat, p: Path, h: Hash)
    requires FilesWF(s.meta.files) && Room(s.meta.files, h) && p in s.meta.nodes && !s.meta.nodes[p].isDir
    ensures var t, r := Taken(s, fd, p, h).meta, ClaimedRef(s.meta.files, h);
      FilesWF(t.files) && LocOf(t, p) == Some(FileLoc(h, r)) && Lookup(t.files, h, r) == Some(DEFAULT_META)
  {
    ClaimWF(s.meta.files, h);
    ClaimLive(s.meta.files, h, h, ClaimedRef(s.meta.files, h));
  }

  /** Closing a file that was open for writing leaves it with a record if and only if its content is new, or
      the link was made and the file had none before; and with a record that bears its own name if and only if
      moreover the calls that fill it in succeed and an old record it continues bore that name. */
  lemma ReleaseLeavesRecord(H: Hasher, s: Sys, fd: nat, p: Path, o: Env)
    requires FilesWF(s.meta.files) && Room(s.meta.files, FinalHash(H, s, p))
    requires fd in s.handles && s.handles[fd].writing && p in s.meta.nodes && !s.meta.nodes[p].isDir && p != []
    ensures var t, was := Release(H, s, fd, p, o).sys.meta, OldRecord(s, fd);
      var unique, linked := IsUnique(s.meta.files, FinalHash(H, s, p)), !GivesUpLinking(H, s, fd, p, o);
      && (MetaOf(t, p).Some? <==> unique || (linked && was.None?))
      && (HasName(t, p) && MetaOf(t, p).value.path == p
          <==> if unique then o.fstatOk && fd in s.fs.fds && (was.Some? ==> was.value.path == p)
               else linked && was.None? && o.spareOk && SparePath(p) !in s.fs.folders && o.spareStatOk)
  {
    var h := FinalHash(H, s, p);
    TakenFacts(s, fd, p, h);
    if IsUnique(s.meta.files, h) {
      UniqueLeaves(Taken(s, fd, p, h), fd, p, FileLoc(h, ClaimedRef(s.meta.files, h)), OldRecord(s, fd),
                   BufferOwner(s, p), o);
    } else {
      DuplicateBegins(H, s, fd, p, o, h);
      DuplicateLeaves(TakenClosed(s, fd, p, h), p, h, ClaimedRef(s.meta.files, h),
                      Recent(CreateEntry(s.meta.files, h)[h]),
                      OldRecord(s, fd), BufferOwner(s, p), o);
    }
  }

  // ---------- the temporary name ----------

  /** The name is left behind if a clean-up fails, or if the record names a link to the very file: then
      rename() does nothing. */
  predicate LeavesTmpName(fs: FS, p: Path, rec: Option<Meta>, o: Env) {
    && rec.Some? && o.linkOk && Link(fs, rec.value.path, TmpPath(p)).Some?
    && if o.lstatOk && o.renameOk && p !in fs.folders then p in fs.dir && fs.dir[p] == fs.dir[rec.value.path]
       else !o.tmpUnlinkOk
  }

  /** Making and removing a scratch file leaves every other name where it was. */
  lemma ScratchFileKeepsName(fs: FS, x: Path, fd: nat, ino: nat, ok: bool, t: Path)
    requires OpenCreate(fs, x, fd, ino).Some? && t != x
    ensures t in Close(OpenCreate(fs, x, fd, ino).value, fd).dir <==> t in fs.dir
    ensures t in Scratch(Close(OpenCreate(fs, x, fd, ino).value, fd), x, ok).dir <==> t in fs.dir
  {
  }

  lemma FinishKeepsTmp(s: Sys, p: Path, h: Hash, r: nat, st: Stat, was: Option<Meta>, owner: Owner, o: Env)
    ensures TmpPath(p) in FinishDuplicate(s, p, h, r, st, was, owner, o).sys.fs.dir <==> TmpPath(p) in s.fs.dir
  {
    hide StatOf, TouchDir, UpdateTime;
    hide OpenCreate, Close, Scratch, FillDuplicate;
    var t, x := TmpPath(p), SparePath(p);
    assert |t| == |p| + 6 && |x| == |p| + 8;
    if OpenCreate(s.fs, x, o.spareFd, o.spareIno).Some? {
      ScratchFileKeepsName(s.fs, x, o.spareFd, o.spareIno, o.spareUnlinkOk, t);
    }
  }

  lemma DuplicateLeavesTmp(s: Sys, p: Path, h: Hash, r: nat, rec: Option<Meta>, was: Option<Meta>, owner: Owner, o: Env)
    requires Unused(s.fs, TmpPath(p))
    ensures TmpPath(p) in ReleaseDuplicate(s, p, h, r, rec, was, owner, o).sys.fs.dir
      <==> LeavesTmpName(s.fs, p, rec, o)
  {
    ScratchNamesAreNotUserPaths(p);
    if !GivesUp(s, p, rec, o) {
      GoingOnFinishes(s, p, h, r, rec, was, owner, o);
      var linked := Link(s.fs, rec.value.path, TmpPath(p)).value;
      FinishKeepsTmp(s.(fs := Rename(linked, TmpPath(p), p).value), p, h, r,
                     StatOf(linked, linked.dir[TmpPath(p)], o.st), was, owner, o);
    }
  }

  lemma ReleaseLeavesTmp(H: Hasher, s: Sys, fd: nat, p: Path, o: Env)
    requires Unused(s.fs, TmpPath(p))
    ensures TmpPath(p) in Release(H, s, fd, p, o).sys.fs.dir <==>
      && fd in s.handles && s.handles[fd].writing && !IsUnique(s.meta.files, FinalHash(H, s, p))
      && LeavesTmpName(s.fs, p, NewestRecord(H, s, p), o)
  {
    var h := FinalHash(H, s, p);
    if fd in s.handles && s.handles[fd].writing && !IsUnique(s.meta.files, h) {
      var s2, rec := TakenClosed(s, fd, p, h), Recent(CreateEntry(s.meta.files, h)[h]);
      DuplicateBegins(H, s, fd, p, o, h);
      DuplicateLeavesTmp(s2, p, h, ClaimedRef(s.meta.files, h), rec, OldRecord(s, fd), BufferOwner(s, p), o);
      assert LeavesTmpName(s2.fs, p, rec, o) <==> LeavesTmpName(s.fs, p, rec, o);
    }
  }

  // ---------- hard links ----------

  /** Unlinking a leaves the record of another file as it was if and only if there is none, the kernel refuses,
      a has no key of non-empty content, or the two keys differ. */
  lemma UnlinkKeepsRecord(s: Sys, parent: Path, a: Path, b: Path, ok: bool, now: Timespec)
    requires FilesWF(s.meta.files) && a != b && b in s.meta.nodes && !s.meta.nodes[b].isDir
    ensures var r := Session.Unlink(s, parent, a, ok, now);
      MetaOf(r.sys.meta, b) == MetaOf(s.meta, b) <==>
        || MetaOf(s.meta, b).None? || !ok || Underlying.Unlink(s.fs, a).None? || a !in s.meta.nodes
        || s.meta.nodes[a].hash == ZERO
        || (s.meta.nodes[a].hash, s.meta.nodes[a].ref) != (s.meta.nodes[b].hash, s.meta.nodes[b].ref)
  {
    TouchDirFrame(DropPath(s.meta, a), parent, now);
    if a in s.meta.nodes {
      RemoveLive(s.meta.files, s.meta.nodes[a].hash, s.meta.nodes[a].ref, s.meta.nodes[b].hash, s.meta.nodes[b].ref);
    }
  }

  /** Making a hard link leaves source and target with attributes of their own if and only if no link is made
      or the source has no record. */
  lemma HardLinkSharesKey(s: Sys, parent: Path, a: Path, b: Path, mode: nat, ok: bool, statOk: bool, now: Timespec)
    requires a != b && b !in s.meta.nodes && (a in s.meta.nodes ==> !s.meta.nodes[a].isDir)
    ensures var s' := HardLink(s, parent, a, b, mode, ok, statOk, now).sys.meta;
      Apart(s', a, b) <==> !(ok && Link(s.fs, a, b).Some? && statOk) || MetaOf(s.meta, a).None?
  {
    if a in s.meta.nodes {
      var info := s.meta.nodes[a];
      TouchDirFrame(StoreReg(s.meta, b, info.stable, mode, info.hash, info.ref), parent, now);
    }
  }

  /** And it leaves every record with its owner's name under the same condition: the record names the source. */
  lemma HardLinkKeepsNames(s: Sys, parent: Path, a: Path, b: Path, mode: nat, ok: bool, statOk: bool, now: Timespec)
    requires Named(s.meta) && a != b && b !in s.meta.nodes && (a in s.meta.nodes ==> !s.meta.nodes[a].isDir)
    ensures Named(HardLink(s, parent, a, b, mode, ok, statOk, now).sys.meta) <==>
      !(ok && Link(s.fs, a, b).Some? && statOk) || !HasName(s.meta, a)
  {
    if a in s.meta.nodes {
      var info := s.meta.nodes[a];
      var t := StoreReg(s.meta, b, info.stable, mode, info.hash, info.ref);
      assert forall q | q in s.meta.nodes :: MetaOf(t, q) == MetaOf(s.meta, q);
      assert MetaOf(t, b) == MetaOf(s.meta, a);
      TouchKeepsNames(t, parent, now);
    }
  }
}
