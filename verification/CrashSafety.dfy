/** A duplicate Release seen one system call at a time, so that it may stop between any two of them. */
module CrashSafety {
  import opened Basics
  import opened Fingerprints
  import opened StoreModel
  import opened Underlying
  import opened Session
  import opened DedupTree
  import opened WriteOnce
  import opened WriteOnceRelease
  import opened Transparency

  /** The next system call. */
  datatype Pc =
    | PClose | PLink | PLstat | PRename | PDropTmp(failed: Errno)
    | PSpareOpen | PSpareClose | PSpareStat | PDropSpare(ok: bool)
    | PDone(reply: Errno)

  datatype Frame = Frame(pc: Pc, fs: FS)

  /** One system call of the release of p, whose content is recorded under the name q; `migrate` tells
      whether the handle had an older record, in which case no spare file is needed. */
  function Call(o: Env, fd: nat, p: Path, q: Path, migrate: bool, f: Frame): Frame {
    match f.pc
    case PClose => Frame(PLink, Close(f.fs, fd))
    case PLink =>
      var out := Link(f.fs, q, TmpPath(p));
      if !o.linkOk || out.None? then Frame(PDone(ENOLINK), f.fs) else Frame(PLstat, out.value)
    case PLstat => if o.lstatOk then Frame(PRename, f.fs) else Frame(PDropTmp(ENOENT), f.fs)
    case PRename =>
      var out := Rename(f.fs, TmpPath(p), p);
      if !o.renameOk || out.None? then Frame(PDropTmp(EIO), f.fs)
      else Frame(if migrate then PDone(OK) else PSpareOpen, out.value)
    case PDropTmp(failed) => Frame(PDone(failed), Scratch(f.fs, TmpPath(p), o.tmpUnlinkOk))
    case PSpareOpen =>
      var out := OpenCreate(f.fs, SparePath(p), o.spareFd, o.spareIno);
      if !o.spareOk || out.None? then Frame(PDone(Kernel), f.fs) else Frame(PSpareClose, out.value)
    case PSpareClose => Frame(PSpareStat, Close(f.fs, o.spareFd))
    case PSpareStat => Frame(PDropSpare(o.spareStatOk && SparePath(p) in f.fs.dir), f.fs)
    case PDropSpare(ok) => Frame(PDone(if ok then OK else Kernel), Scratch(f.fs, SparePath(p), o.spareUnlinkOk))
    case PDone(_) => f
  }

  /** The state n system calls later, or where the Release ended if it ended before. */
  function Calls(o: Env, fd: nat, p: Path, q: Path, migrate: bool, f: Frame, n: nat): Frame
    decreases n
  {
    if n == 0 || f.pc.PDone? then f else Calls(o, fd, p, q, migrate, Call(o, fd, p, q, migrate, f), n - 1)
  }

  // ---------- the calls add up to the function ----------

  /** The longest path through the branch has eight calls. */
  const ENOUGH: nat := 8

  lemma OneCall(o: Env, fd: nat, p: Path, q: Path, migrate: bool, f: Frame, n: nat)
    requires n > 0 && !f.pc.PDone?
    ensures Calls(o, fd, p, q, migrate, f, n) == Calls(o, fd, p, q, migrate, Call(o, fd, p, q, migrate, f), n - 1)
  {
  }

  lemma DropCalls(o: Env, fd: nat, p: Path, q: Path, migrate: bool, f: Frame, n: nat)
    requires f.pc.PDropTmp? || f.pc.PDropSpare?
    requires n > 0
    ensures var g := Calls(o, fd, p, q, migrate, f, n);
      g == Call(o, fd, p, q, migrate, f) && g.pc.PDone?
  {
    OneCall(o, fd, p, q, migrate, f, n);
  }

  lemma SpareCalls(o: Env, fd: nat, p: Path, q: Path, s: Sys, h: Hash, ref: nat, st: Stat, owner: Owner, n: nat)
    requires n >= 4
    ensures var r := FinishDuplicate(s, p, h, ref, st, None, owner, o);
      var g := Calls(o, fd, p, q, false, Frame(PSpareOpen, s.fs), n);
      g.pc.PDone? && g.fs == r.sys.fs && r.reply == Err(g.pc.reply)
  {
    var f0 := Frame(PSpareOpen, s.fs);
    var f1 := Call(o, fd, p, q, false, f0);
    OneCall(o, fd, p, q, false, f0, n);
    if !f1.pc.PDone? {
      var f2 := Call(o, fd, p, q, false, f1);
      OneCall(o, fd, p, q, false, f1, n - 1);
      OneCall(o, fd, p, q, false, f2, n - 2);
      DropCalls(o, fd, p, q, false, Call(o, fd, p, q, false, f2), n - 3);
    }
  }

  /** Run to its end, the sequence of system calls leaves the tree and the reply of ReleaseDuplicate. */
  lemma CallsAreReleaseDuplicate(s: Sys, fd: nat, p: Path, h: Hash, ref: nat, rec: Meta, was: Option<Meta>,
                                 owner: Owner, o: Env)
    ensures var r := ReleaseDuplicate(s.(fs := Close(s.fs, fd)), p, h, ref, Some(rec), was, owner, o);
      var g := Calls(o, fd, p, rec.path, was.Some?, Frame(PClose, s.fs), ENOUGH);
      g.pc.PDone? && g.fs == r.sys.fs && r.reply == Err(g.pc.reply)
  {
    hide Link;
    var q, m := rec.path, was.Some?;
    var f0 := Frame(PClose, s.fs);
    var f1 := Call(o, fd, p, q, m, f0);
    var f2 := Call(o, fd, p, q, m, f1);
    OneCall(o, fd, p, q, m, f0, 8);
    OneCall(o, fd, p, q, m, f1, 7);
    if f2.pc == PLstat {
      var f3 := Call(o, fd, p, q, m, f2);
      OneCall(o, fd, p, q, m, f2, 6);
      if f3.pc == PRename {
        var f4 := Call(o, fd, p, q, m, f3);
        OneCall(o, fd, p, q, m, f3, 5);
        if f4.pc == PSpareOpen {
          SpareCalls(o, fd, p, q, s.(fs := f4.fs), h, ref, StatOf(f2.fs, f2.fs.dir[TmpPath(p)], o.st), owner, 4);
        } else if f4.pc.PDropTmp? {
          DropCalls(o, fd, p, q, m, f4, 4);
        }
      } else {
        DropCalls(o, fd, p, q, m, f3, 5);
      }
    }
  }

  // ---------- stopping anywhere is safe ----------

  /** The situation a duplicate Release of p finds: p has its own inode, q is another file of equal bytes,
      and the two scratch names are free. */
  ghost predicate Situation(fs: FS, p: Path, q: Path) {
    && WF(fs) && p in fs.dir && q in fs.dir && fs.dir[p] != fs.dir[q] && Contents(fs)[p] == Contents(fs)[q]
    && Unused(fs, TmpPath(p)) && Unused(fs, SparePath(p))
  }

  /** The trees along the way. */
  datatype Trees = Trees(closed: FS, linked: FS, renamed: FS, spared: FS, spareClosed: FS)

  function RenamedTree(fs: FS, fd: nat, p: Path, q: Path): FS {
    var out := Link(Close(fs, fd), q, TmpPath(p));
    if out.Some? && Rename(out.value, TmpPath(p), p).Some? then Rename(out.value, TmpPath(p), p).value else fs
  }

  /** The kernel gives the spare file a descriptor and an inode that are free at that moment. */
  ghost predicate SpareIsFresh(fs: FS, fd: nat, p: Path, q: Path, o: Env) {
    o.spareFd !in RenamedTree(fs, fd, p, q).fds && o.spareIno !in RenamedTree(fs, fd, p, q).inodes
  }

  /** fs' shows every name of fs with its bytes, plus the names in extra. */
  ghost predicate ShowsWith(fs: FS, fs': FS, extra: set<Path>) {
    && WF(fs') && fs'.dir.Keys == fs.dir.Keys + extra && fs'.folders == fs.folders
    && forall x | x in fs.dir :: Contents(fs')[x] == Contents(fs)[x]
  }

  /** t holds the trees of a Release whose calls succeed. */
  ghost predicate Track(fs: FS, fd: nat, p: Path, q: Path, o: Env, t: Trees) {
    && t.closed == Close(fs, fd)
    && Link(t.closed, q, TmpPath(p)) == Some(t.linked)
    && Rename(t.linked, TmpPath(p), p) == Some(t.renamed)
    && OpenCreate(t.renamed, SparePath(p), o.spareFd, o.spareIno) == Some(t.spared)
    && t.spareClosed == Close(t.spared, o.spareFd) && SparePath(p) in t.spareClosed.dir
  }

  lemma ShowsThen(fs: FS, mid: FS, fs': FS, extra: set<Path>)
    requires ShowsWith(fs, mid, {}) && ShowsWith(mid, fs', extra)
    ensures ShowsWith(fs, fs', extra)
  {
    assert mid.dir.Keys == fs.dir.Keys;
  }

  lemma LinkShows(fs: FS, p: Path, q: Path) returns (linked: FS, renamed: FS)
    requires Situation(fs, p, q)
    ensures Link(fs, q, TmpPath(p)) == Some(linked) && ShowsWith(fs, linked, {TmpPath(p)})
    ensures Rename(linked, TmpPath(p), p) == Some(renamed) && ShowsWith(fs, renamed, {})
  {
    hide WF;
    linked := LinkEffect(fs, q, TmpPath(p));
    renamed := ReplaceByLink(fs, q, p, TmpPath(p));
    RedirectShows(fs, renamed, p, q);
  }

  lemma RedirectShows(fs: FS, fs': FS, p: Path, q: Path)
    requires p in fs.dir && q in fs.dir && WF(fs') && fs'.dir == fs.dir[p := fs.dir[q]] && fs'.folders == fs.folders
    requires Contents(fs') == Contents(fs)[p := Contents(fs)[q]] && Contents(fs)[p] == Contents(fs)[q]
    ensures ShowsWith(fs, fs', {})
  {
  }

  lemma SpareShows(fs: FS, spare: Path, fd: nat, ino: nat) returns (made: FS, closed: FS)
    requires WF(fs) && Unused(fs, spare) && fd !in fs.fds && ino !in fs.inodes
    ensures OpenCreate(fs, spare, fd, ino) == Some(made) && ShowsWith(fs, made, {spare})
    ensures closed == Close(made, fd) && ShowsWith(fs, closed, {spare})
  {
    hide WF;
    made := OpenCreateEffect(fs, spare, fd, ino);
    closed := CloseEffect(made, fd);
  }

  predicate LeavesTmp(o: Env) {
    o.linkOk && !(o.lstatOk && o.renameOk) && !o.tmpUnlinkOk
  }

  predicate LeavesSpare(o: Env, migrate: bool) {
    o.linkOk && o.lstatOk && o.renameOk && !migrate && o.spareOk && !o.spareUnlinkOk
  }

  function LeftOver(o: Env, p: Path, migrate: bool): set<Path> {
    if LeavesTmp(o) then {TmpPath(p)} else if LeavesSpare(o, migrate) then {SparePath(p)} else {}
  }

  function FinalTree(t: Trees, o: Env, p: Path, migrate: bool): FS {
    if !o.linkOk then t.closed
    else if !(o.lstatOk && o.renameOk) then Scratch(t.linked, TmpPath(p), o.tmpUnlinkOk)
    else if migrate || !o.spareOk then t.renamed
    else Scratch(t.spareClosed, SparePath(p), o.spareUnlinkOk)
  }

  /** Where a Release can be, and the tree it then sees. */
  ghost predicate Stage(fs: FS, t: Trees, p: Path, migrate: bool, o: Env, f: Frame) {
    match f.pc
    case PClose => f.fs == fs
    case PLink => f.fs == t.closed
    case PLstat => o.linkOk && f.fs == t.linked
    case PRename => o.linkOk && o.lstatOk && f.fs == t.linked
    case PDropTmp(_) => o.linkOk && !(o.lstatOk && o.renameOk) && f.fs == t.linked
    case PSpareOpen => o.linkOk && o.lstatOk && o.renameOk && !migrate && f.fs == t.renamed
    case PSpareClose => o.linkOk && o.lstatOk && o.renameOk && !migrate && o.spareOk && f.fs == t.spared
    case PSpareStat => o.linkOk && o.lstatOk && o.renameOk && !migrate && o.spareOk && f.fs == t.spareClosed
    case PDropSpare(_) => o.linkOk && o.lstatOk && o.renameOk && !migrate && o.spareOk && f.fs == t.spareClosed
    case PDone(_) => f.fs == FinalTree(t, o, p, migrate)
  }

  /** Every system call leads from one stage to the next. */
  lemma CallKeepsStage(fs: FS, fd: nat, p: Path, q: Path, migrate: bool, o: Env, t: Trees, f: Frame)
    requires Track(fs, fd, p, q, o, t) && Stage(fs, t, p, migrate, o, f)
    ensures Stage(fs, t, p, migrate, o, Call(o, fd, p, q, migrate, f))
  {
  }

  lemma {:induction false} CallsKeepStage(fs: FS, fd: nat, p: Path, q: Path, migrate: bool, o: Env, t: Trees, f: Frame,
                                          n: nat)
    requires Track(fs, fd, p, q, o, t) && Stage(fs, t, p, migrate, o, f)
    ensures Stage(fs, t, p, migrate, o, Calls(o, fd, p, q, migrate, f, n))
    decreases n
  {
    if n != 0 && !f.pc.PDone? {
      CallKeepsStage(fs, fd, p, q, migrate, o, t, f);
      CallsKeepStage(fs, fd, p, q, migrate, o, t, Call(o, fd, p, q, migrate, f), n - 1);
    }
  }

  /** What the trees show. */
  ghost predicate Shown(fs: FS, p: Path, t: Trees) {
    && ShowsWith(fs, fs, {}) && ShowsWith(fs, t.closed, {}) && ShowsWith(fs, t.linked, {TmpPath(p)})
    && ShowsWith(fs, t.renamed, {}) && ShowsWith(fs, t.spared, {SparePath(p)})
       && ShowsWith(fs, t.spareClosed, {SparePath(p)})
    && TmpPath(p) !in fs.dir && SparePath(p) !in fs.dir
  }

  lemma TrackExists(fs: FS, fd: nat, p: Path, q: Path, o: Env) returns (t: Trees)
    requires Situation(fs, p, q) && SpareIsFresh(fs, fd, p, q, o)
    ensures Track(fs, fd, p, q, o, t) && Shown(fs, p, t)
  {
    var fs1 := CloseEffect(fs, fd);
    var fs2, fs3 := LinkedTrees(fs, fd, p, q, fs1);
    var fs4, fs5 := SpareShows(fs3, SparePath(p), o.spareFd, o.spareIno);
    t := Trees(fs1, fs2, fs3, fs4, fs5);
    TreesShow(fs, p, t);
  }

  lemma LinkedTrees(fs: FS, fd: nat, p: Path, q: Path, fs1: FS) returns (fs2: FS, fs3: FS)
    requires Situation(fs, p, q) && fs1 == Close(fs, fd) && ShowsWith(fs, fs1, {}) && fs1.dir == fs.dir
    ensures Link(fs1, q, TmpPath(p)) == Some(fs2) && Rename(fs2, TmpPath(p), p) == Some(fs3)
    ensures ShowsWith(fs1, fs2, {TmpPath(p)}) && ShowsWith(fs1, fs3, {}) && Unused(fs3, SparePath(p)) && WF(fs3)
  {
    fs2, fs3 := LinkShows(fs1, p, q);
    SituationHolds(fs, fs3, p);
  }

  lemma SituationHolds(fs: FS, fs3: FS, p: Path)
    requires Unused(fs, SparePath(p)) && fs3.dir.Keys == fs.dir.Keys && fs3.folders == fs.folders
    ensures Unused(fs3, SparePath(p))
  {
  }

  lemma TreesShow(fs: FS, p: Path, t: Trees)
    requires WF(fs) && Unused(fs, TmpPath(p)) && Unused(fs, SparePath(p)) && ShowsWith(fs, t.closed, {})
    requires ShowsWith(t.closed, t.linked, {TmpPath(p)}) && ShowsWith(t.closed, t.renamed, {})
    requires ShowsWith(t.renamed, t.spared, {SparePath(p)}) && ShowsWith(t.renamed, t.spareClosed, {SparePath(p)})
    ensures Shown(fs, p, t)
  {
    ShowsThen(fs, t.closed, t.linked, {TmpPath(p)});
    ShowsThen(fs, t.closed, t.renamed, {});
    ShowsThen(fs, t.renamed, t.spared, {SparePath(p)});
    ShowsThen(fs, t.renamed, t.spareClosed, {SparePath(p)});
  }

  lemma DropShows(fs: FS, fs': FS, x: Path, ok: bool)
    requires x !in fs.dir && ShowsWith(fs, fs', {x})
    ensures ShowsWith(fs, Scratch(fs', x, ok), if ok then {} else {x})
  {
    hide Respond;
    var gone := UnlinkEffect(fs', x);
  }

  lemma FinalTreeShows(fs: FS, p: Path, migrate: bool, o: Env, t: Trees)
    requires Shown(fs, p, t)
    ensures ShowsWith(fs, FinalTree(t, o, p, migrate), LeftOver(o, p, migrate))
  {
    DropShows(fs, t.linked, TmpPath(p), o.tmpUnlinkOk);
    DropShows(fs, t.spareClosed, SparePath(p), o.spareUnlinkOk);
  }

  /** The tree shows every name with its bytes and at most one name more, one of the two scratch names. */
  ghost predicate Safe(fs: FS, p: Path, fs': FS) {
    ShowsWith(fs, fs', {}) || ShowsWith(fs, fs', {TmpPath(p)}) || ShowsWith(fs, fs', {SparePath(p)})
  }

  lemma StageIsSafe(fs: FS, p: Path, migrate: bool, o: Env, t: Trees, f: Frame)
    requires Shown(fs, p, t) && Stage(fs, t, p, migrate, o, f)
    ensures Safe(fs, p, f.fs)
  {
    FinalTreeShows(fs, p, migrate, o, t);
  }

  /** Crash safety: stopped after any number of system calls, the tree is safe. */
  lemma StoppingIsSafe(fs: FS, fd: nat, p: Path, q: Path, migrate: bool, o: Env, n: nat)
    requires Situation(fs, p, q) && SpareIsFresh(fs, fd, p, q, o)
    ensures Safe(fs, p, Calls(o, fd, p, q, migrate, Frame(PClose, fs), n).fs)
  {
    var t := TrackExists(fs, fd, p, q, o);
    CallsKeepStage(fs, fd, p, q, migrate, o, t, Frame(PClose, fs), n);
    StageIsSafe(fs, p, migrate, o, t, Calls(o, fd, p, q, migrate, Frame(PClose, fs), n));
  }

  /** When it returns, whichever branch it took, no scratch name is left if and only if the clean-up unlink
      that its branch needs (if any) succeeded. */
  lemma NothingLeftBehind(fs: FS, fd: nat, p: Path, q: Path, migrate: bool, o: Env, n: nat)
    requires Situation(fs, p, q) && SpareIsFresh(fs, fd, p, q, o)
    requires Calls(o, fd, p, q, migrate, Frame(PClose, fs), n).pc.PDone?
    ensures var g := Calls(o, fd, p, q, migrate, Frame(PClose, fs), n);
      && ShowsWith(fs, g.fs, LeftOver(o, p, migrate))
      && (g.fs.dir.Keys == fs.dir.Keys <==> !LeavesTmp(o) && !LeavesSpare(o, migrate))
  {
    var t := TrackExists(fs, fd, p, q, o);
    CallsKeepStage(fs, fd, p, q, migrate, o, t, Frame(PClose, fs), n);
    FinalTreeShows(fs, p, migrate, o, t);
    LeftOverMeans(fs, FinalTree(t, o, p, migrate), p, migrate, o);
  }

  lemma LeftOverMeans(fs: FS, fs': FS, p: Path, migrate: bool, o: Env)
    requires fs'.dir.Keys == fs.dir.Keys + LeftOver(o, p, migrate) && TmpPath(p) !in fs.dir && SparePath(p) !in fs.dir
    ensures fs'.dir.Keys == fs.dir.Keys <==> !LeavesTmp(o) && !LeavesSpare(o, migrate)
  {
    if LeavesTmp(o) {
      assert TmpPath(p) in fs'.dir.Keys;
    } else if LeavesSpare(o, migrate) {
      assert SparePath(p) in fs'.dir.Keys;
    }
  }

  // ---------- in write-once runs ----------

  lemma NothingToLink(fs: FS, fd: nat, p: Path, q: Path, migrate: bool, o: Env, n: nat)
    requires WF(fs) && q !in fs.dir
    ensures var g := Calls(o, fd, p, q, migrate, Frame(PClose, fs), n);
      ShowsWith(fs, g.fs, {})
  {
    var fs1 := CloseEffect(fs, fd);
    var f0, f1 := Frame(PClose, fs), Frame(PLink, fs1);
    if n > 0 {
      OneCall(o, fd, p, q, migrate, f0, n);
      if n > 1 {
        OneCall(o, fd, p, q, migrate, f1, n - 1);
      }
    }
  }

  /** Write-once runs find the safe situation whenever a duplicate Release has something to link. */
  lemma WriteOnceSituation(H: Hasher, s: Sys, k: Hist, fd: nat, p: Path, o: Env, q: Path)
    requires Inv(H, s, k) && Allowed(H, s, k, ERelease(fd, p, o)) && s.handles[fd].writing
    requires p in k.blocks ==> CollisionFree(H, k.hashed + Inputs(H, k.blocks[p]))
    requires var h := FinalHash(H, s, p);
      !IsUnique(s.meta.files, h) && Recent(s.meta.files[h]).Some? && Recent(s.meta.files[h]).value.path == q
    ensures q in s.fs.dir ==> Situation(s.fs, p, q) && SpareIsFresh(s.fs, fd, p, q, o)
  {
    var h := FinalHash(H, s, p);
    assert Get(k.open, p) == Some(fd);
    FinalHashIsFingerprint(H, s, k, p);
    OpenIsReady(H, s, k, p);
    var r := RecentIsLargest(s.meta.files[h]);
    if q in s.fs.dir {
      EmptyPathUnused(H, s, k);
      RecordedCopy(H, s, k, p, h, r);
      SpareTreeIsRenamed(H, s, fd, p, h, q);
    }
  }

  lemma SpareTreeIsRenamed(H: Hasher, s: Sys, fd: nat, p: Path, h: Hash, q: Path)
    requires Situation(s.fs, p, q) && h == FinalHash(H, s, p) && h in s.meta.files
    requires Recent(s.meta.files[h]).Some? && Recent(s.meta.files[h]).value.path == q
    ensures SpareTree(H, s, fd, p) == RenamedTree(s.fs, fd, p, q)
  {
    hide Counted;
    var fs1 := CloseEffect(s.fs, fd);
    var fs2, fs3 := LinkShows(fs1, p, q);
  }

  /** The same outcome, but for the unlink() of a scratch name. */
  function CleanedUp(o: Env): Env { o.(tmpUnlinkOk := true, spareUnlinkOk := true) }

  /** Where a duplicate Release of a write-once run starts, whatever its clean-ups will meet. */
  lemma RunSituation(H: Hasher, es: seq<Event>, fd: nat, p: Path, o: Env) returns (q: Path)
    requires var all := es + [ERelease(fd, p, CleanedUp(o))];
      WriteOnceRun(H, all) && CollisionFree(H, HistAfter(H, all).hashed)
    requires var s := After(H, es);
      fd in s.handles && s.handles[fd].writing && !IsUnique(s.meta.files, FinalHash(H, s, p))
    ensures var s := After(H, es);
      && Ready(s, fd, p) && Room(s.meta.files, FinalHash(H, s, p)) && Recent(s.meta.files[FinalHash(H, s, p)]).Some?
      && Recent(s.meta.files[FinalHash(H, s, p)]).value.path == q
      && (q in s.fs.dir ==> Situation(s.fs, p, q) && SpareIsFresh(s.fs, fd, p, q, o))
  {
    hide Respond;
    var e := ERelease(fd, p, CleanedUp(o));
    var all := es + [e];
    assert all[..|all| - 1] == es;
    var s, k := After(H, es), HistAfter(H, es);
    RunPrefix(H, all);
    HashedGrows(H, s, k, e);
    RunKeepsInv(H, es);
    assert Get(k.open, p) == Some(fd);
    OpenIsReady(H, s, k, p);
    var r := RecentIsLargest(s.meta.files[FinalHash(H, s, p)]);
    q := Recent(s.meta.files[FinalHash(H, s, p)]).value.path;
    WriteOnceSituation(H, s, k, fd, p, CleanedUp(o), q);
  }

  /** Any duplicate Release of any write-once run may stop after any number of its system calls. */
  lemma ReleaseIsCrashSafe(H: Hasher, es: seq<Event>, fd: nat, p: Path, o: Env, n: nat)
    requires var all := es + [ERelease(fd, p, CleanedUp(o))];
      WriteOnceRun(H, all) && CollisionFree(H, HistAfter(H, all).hashed)
    requires var s := After(H, es);
      fd in s.handles && s.handles[fd].writing && !IsUnique(s.meta.files, FinalHash(H, s, p))
    ensures var s := After(H, es);
      var rec := Recent(s.meta.files[FinalHash(H, s, p)]);
      rec.Some? && Safe(s.fs, p, Calls(o, fd, p, rec.value.path, false, Frame(PClose, s.fs), n).fs)
  {
    hide Respond;
    var s := After(H, es);
    var q := RunSituation(H, es, fd, p, o);
    if q in s.fs.dir {
      StoppingIsSafe(s.fs, fd, p, q, false, o, n);
    } else {
      NothingToLink(s.fs, fd, p, q, false, o, n);
    }
  }

  /** When it returns, whichever calls failed, every path shows its bytes; and no scratch name is left if and only
      if there was nothing to link or the clean-up its branch needs, if any, did not fail. */
  lemma ReleaseLeavesNothingBehind(H: Hasher, es: seq<Event>, fd: nat, p: Path, o: Env) returns (q: Path)
    requires var all := es + [ERelease(fd, p, CleanedUp(o))];
      WriteOnceRun(H, all) && CollisionFree(H, HistAfter(H, all).hashed)
    requires var s := After(H, es);
      fd in s.handles && s.handles[fd].writing && !IsUnique(s.meta.files, FinalHash(H, s, p))
    ensures var s, fs' := After(H, es), Release(H, After(H, es), fd, p, o).sys.fs;
      && Recent(s.meta.files[FinalHash(H, s, p)]).Some? && Recent(s.meta.files[FinalHash(H, s, p)]).value.path == q
      && ShowsWith(s.fs, fs', if q in s.fs.dir then LeftOver(o, p, false) else {})
      && (fs'.dir.Keys == s.fs.dir.Keys <==> q !in s.fs.dir || (!LeavesTmp(o) && !LeavesSpare(o, false)))
  {
    hide Respond;
    var s := After(H, es);
    q := RunSituation(H, es, fd, p, o);
    var h := FinalHash(H, s, p);
    var t, rec := Taken(s, fd, p, h), Recent(s.meta.files[h]).value;
    DuplicateStarts(H, s, fd, p, o, h, TakenClosed(s, fd, p, h));
    TakenShape(s, fd, p, h);
    CallsAreReleaseDuplicate(t, fd, p, h, ClaimedRef(s.meta.files, h), rec, None, BufferOwner(s, p), o);
    if q in s.fs.dir {
      NothingLeftBehind(s.fs, fd, p, q, false, o, ENOUGH);
    } else {
      NothingToLink(s.fs, fd, p, q, false, o, ENOUGH);
    }
  }
}
