/** A rename moves the metadata of a file or directory with it, whatever the new name led to before, and renaming
    back from a name that was not in use undoes it. */
module Renames {
  import opened Basics
  import opened StoreModel
  import opened Underlying
  import opened Session
  import opened SequentialRuns
  import opened AttributeMaps

  /** Equal but for modification and change time. */
  ghost predicate SameButTimes(m: Meta, m': Meta) {
    m'.(mtim := m.mtim, ctim := m.ctim) == m
  }

  /** Equal but for the times of the directories in ps. */
  ghost predicate UpToTimes(s: Store, s': Store, ps: set<Path>) {
    && s'.(dirs := s.dirs) == s && s'.dirs.Keys == s.dirs.Keys
    && forall q | q in s.dirs :: if q in ps then SameButTimes(s.dirs[q], s'.dirs[q]) else s'.dirs[q] == s.dirs[q]
  }

  lemma TouchedBoth(s: Store, p: Path, q: Path, now: Timespec)
    ensures UpToTimes(s, TouchDir(TouchDir(s, p, now), q, now), {p, q})
  {
    var t := TouchDir(s, p, now);
    assert UpToTimes(s, t, {p, q});
    assert UpToTimes(t, TouchDir(t, q, now), {p, q});
  }

  /** The path has an entry, as StoreRegFileInfo or StoreDirInfo makes them, and a directory record exactly if
      it is a directory. */
  ghost predicate Known(s: Store, p: Path) {
    && p in s.nodes && (s.nodes[p].isDir <==> p in s.dirs)
    && (s.nodes[p].isDir ==> s.nodes[p].hash == ZERO && s.nodes[p].ref == 0)
  }

  ghost predicate Free(s: Store, p: Path) { p !in s.nodes && p !in s.dirs }

  /** Everything b now is, a was; nothing is left of a; everything else is as it was. */
  ghost predicate MovedTo(s: Store, s': Store, a: Path, b: Path)
    requires Known(s, a)
  {
    && s'.files == s.files
    && s'.nodes == (s.nodes - {a})[b := s.nodes[a]]
    && s'.dirs == (if s.nodes[a].isDir then s.dirs[b := s.dirs[a]] - {a} else s.dirs)
    && s.next <= s'.next && forall x | x in s.xattrs :: x in s'.xattrs && s'.xattrs[x] == s.xattrs[x]
  }

  lemma RekeyMoves(s: Store, a: Path, b: Path)
    requires Known(s, a) && a != b && Allocated(s)
    ensures MovedTo(s, Rekey(s, a, b), a, b) && Allocated(Rekey(s, a, b))
  {
  }

  lemma RenameIsRekey(s: Sys, parentA: Path, a: Path, parentB: Path, b: Path, exchange: bool, ok: bool, now: Timespec)
    requires Known(s.meta, a)
    ensures var r := RenamePath(s, parentA, a, parentB, b, exchange, ok, now);
      UpToTimes(if r.reply == Err(OK) then Rekey(s.meta, a, b) else s.meta, r.sys.meta, {parentA, parentB})
  {
    TouchedBoth(Rekey(s.meta, a, b), parentA, parentB, now);
    TouchedBoth(s.meta, parentA, parentB, now);
  }

  /** What can be looked up at q in s' is what could be looked up at p in s. */
  ghost predicate SameLookup(s: Store, p: Path, s': Store, q: Path) {
    Get(s'.nodes, q) == Get(s.nodes, p) && MetaOf(s', q) == MetaOf(s, p) && XAttrMapOf(s', q) == XAttrMapOf(s, p)
  }

  /** The same, with other times. */
  ghost predicate SameLookupButTimes(s: Store, p: Path, s': Store, q: Path) {
    && Get(s'.nodes, q) == Get(s.nodes, p) && XAttrMapOf(s', q) == XAttrMapOf(s, p)
    && (MetaOf(s', q).Some? <==> MetaOf(s, p).Some?)
    && (MetaOf(s', q).Some? ==> SameButTimes(MetaOf(s, p).value, MetaOf(s', q).value))
  }

  lemma MovedLookup(s: Store, s': Store, a: Path, b: Path)
    requires Known(s, a) && a != b && MovedTo(s, s', a, b) && MapsExist(s)
    ensures SameLookup(s, a, s', b)
  {
    if MetaOf(s, a).Some? {
      assert XAt(s, LocOf(s, a).value) == MetaOf(s, a).value.xattr;
    }
  }

  lemma OthersLookup(s: Store, s': Store, a: Path, b: Path, q: Path)
    requires Known(s, a) && MovedTo(s, s', a, b) && q != a && q != b && MapsExist(s)
    ensures SameLookup(s, q, s', q)
  {
    if MetaOf(s, q).Some? {
      assert XAt(s, LocOf(s, q).value) == MetaOf(s, q).value.xattr;
    }
  }

  lemma TimesKeepLookup(s: Store, s': Store, ps: set<Path>, q: Path)
    requires UpToTimes(s, s', ps)
    ensures SameLookupButTimes(s, q, s', q)
    ensures q !in ps || (q in s.nodes && !s.nodes[q].isDir) ==> SameLookup(s, q, s', q)
  {
  }

  /** A rename that has succeeded: what could be looked up at a can be looked up at b, whether b was free, a file or
      a folder; nothing is left at a; and every other lookup is what it was, but for the parents' times. */
  ghost predicate LookupMoved(s: Store, s': Store, a: Path, b: Path, parents: set<Path>)
    requires a in s.nodes
  {
    && SameLookupButTimes(s, a, s', b) && (b !in parents || !s.nodes[a].isDir ==> SameLookup(s, a, s', b))
    && Free(s', a) && s'.files == s.files
    && (forall q | q != a && q != b :: SameLookupButTimes(s, q, s', q))
    && (forall q | q != a && q != b && q !in parents :: SameLookup(s, q, s', q))
  }

  lemma RenameMoves(s: Sys, parentA: Path, a: Path, parentB: Path, b: Path, exchange: bool, ok: bool, now: Timespec)
    requires Known(s.meta, a) && MapsExist(s.meta) && a != b
    requires RenamePath(s, parentA, a, parentB, b, exchange, ok, now).reply == Err(OK)
    ensures LookupMoved(s.meta, RenamePath(s, parentA, a, parentB, b, exchange, ok, now).sys.meta, a, b,
                        {parentA, parentB})
  {
    hide RenamePath, Rekey;
    var t, s' := Rekey(s.meta, a, b), RenamePath(s, parentA, a, parentB, b, exchange, ok, now).sys;
    RenameIsRekey(s, parentA, a, parentB, b, exchange, ok, now);
    RekeyMoves(s.meta, a, b);
    LookupMoves(s.meta, t, s'.meta, a, b, {parentA, parentB});
  }

  lemma LookupMoves(s: Store, t: Store, s': Store, a: Path, b: Path, ps: set<Path>)
    requires Known(s, a) && MapsExist(s) && a != b && MovedTo(s, t, a, b) && UpToTimes(t, s', ps)
    ensures LookupMoved(s, s', a, b, ps)
  {
    MovedLookup(s, t, a, b);
    TimesKeepLookup(t, s', ps, b);
    forall q | q != a && q != b
      ensures SameLookupButTimes(s, q, s', q) && (q !in ps ==> SameLookup(s, q, s', q))
    {
      OthersLookup(s, t, a, b, q);
      TimesKeepLookup(t, s', ps, q);
    }
  }

  /** Onto itself: a file keeps its lookup; a directory loses its record, which the code copies to the new name and
      then takes out under the old. */
  lemma RenameOntoItself(s: Sys, parentA: Path, a: Path, parentB: Path, exchange: bool, ok: bool, now: Timespec)
    requires Known(s.meta, a) && RenamePath(s, parentA, a, parentB, a, exchange, ok, now).reply == Err(OK)
    ensures var s' := RenamePath(s, parentA, a, parentB, a, exchange, ok, now).sys;
      if s.meta.nodes[a].isDir then a in s'.meta.nodes && MetaOf(s'.meta, a).None?
      else SameLookup(s.meta, a, s'.meta, a)
  {
    hide Renamed;
    RenameIsRekey(s, parentA, a, parentB, a, exchange, ok, now);
    TimesKeepLookup(Rekey(s.meta, a, a), RenamePath(s, parentA, a, parentB, a, exchange, ok, now).sys.meta,
                    {parentA, parentB}, a);
  }

  /** When a rename succeeds, and that one that does not changes nothing but its parents' times. */
  lemma RenameReply(s: Sys, parentA: Path, a: Path, parentB: Path, b: Path, exchange: bool, ok: bool, now: Timespec)
    ensures var r := RenamePath(s, parentA, a, parentB, b, exchange, ok, now);
      && (r.reply == Err(ENOENT) <==> a !in s.meta.nodes)
      && (r.reply == Err(EBUSY) <==> a in s.meta.nodes && exchange && (parentA != ROOT || parentB != ROOT))
      && (r.reply == Err(OK) <==> a in s.meta.nodes && (exchange ==> parentA == ROOT && parentB == ROOT) && ok
                                  && Renamed(s.fs, a, b, s.meta.nodes[a].isDir, exchange).Some?)
      && (r.reply == Err(OK) || r.reply == Err(ENOENT) || r.reply == Err(EBUSY) || r.reply == Err(Kernel))
      && (if r.reply == Err(OK) then Some(r.sys.fs) == Renamed(s.fs, a, b, s.meta.nodes[a].isDir, exchange)
          else r.sys.fs == s.fs && UpToTimes(s.meta, r.sys.meta, {parentA, parentB}))
      && r.sys.buffers == s.buffers && r.sys.handles == s.handles
  {
    hide Renamed, Rekey;
    TouchedBoth(s.meta, parentA, parentB, now);
  }

  /** One store is the other, up to the times of ps and to attribute maps nothing points to. */
  ghost predicate Restored(s: Store, s': Store, ps: set<Path>) {
    && s'.files == s.files && s'.nodes == s.nodes && s'.dirs.Keys == s.dirs.Keys
    && (forall q | q in s.dirs :: if q in ps then SameButTimes(s.dirs[q], s'.dirs[q]) else s'.dirs[q] == s.dirs[q])
    && forall x | x in s.xattrs :: x in s'.xattrs && s'.xattrs[x] == s.xattrs[x]
  }

  lemma MovedBackDirs(s: Store, t: Store, t': Store, u: Store, a: Path, b: Path, ps: set<Path>)
    requires Known(s, a) && Free(s, b) && a != b && a !in ps && b !in ps
    requires MovedTo(s, t, a, b) && UpToTimes(t, t', ps) && Known(t', b) && MovedTo(t', u, b, a)
    ensures u.nodes == s.nodes && u.dirs.Keys == s.dirs.Keys && u.files == s.files
    ensures forall q | q in s.dirs :: if q in ps then SameButTimes(s.dirs[q], u.dirs[q]) else u.dirs[q] == s.dirs[q]
  {
  }

  lemma MovedBack(s: Store, t: Store, t': Store, u: Store, u': Store, a: Path, b: Path, ps: set<Path>)
    requires Known(s, a) && Free(s, b) && a != b && a !in ps && b !in ps
    requires MovedTo(s, t, a, b) && UpToTimes(t, t', ps) && Known(t', b) && MovedTo(t', u, b, a) && UpToTimes(u, u', ps)
    ensures Restored(s, u', ps)
  {
    MovedBackDirs(s, t, t', u, a, b, ps);
  }

  lemma RenameBack(s: Sys, parentA: Path, a: Path, parentB: Path, b: Path, now: Timespec, then': Timespec)
    requires Known(s.meta, a) && Free(s.meta, b) && MapsExist(s.meta) && a != b && {parentA, parentB} !! {a, b}
    requires RenamePath(s, parentA, a, parentB, b, false, true, now).reply == Err(OK)
    requires RenamePath(RenamePath(s, parentA, a, parentB, b, false, true, now).sys, parentB, b, parentA, a, false,
                        true, then').reply == Err(OK)
    ensures var s1 := RenamePath(s, parentA, a, parentB, b, false, true, now).sys;
      var s2 := RenamePath(s1, parentB, b, parentA, a, false, true, then').sys;
      Restored(s.meta, s2.meta, {parentA, parentB})
  {
    var ps := {parentA, parentB};
    assert {parentB, parentA} == ps;
    var s1 := RenamePath(s, parentA, a, parentB, b, false, true, now).sys;
    RenameIsRekey(s, parentA, a, parentB, b, false, true, now);
    RekeyMoves(s.meta, a, b);
    TimesKeepFacts(Rekey(s.meta, a, b), s1.meta, ps, a, b);
    RenameIsRekey(s1, parentB, b, parentA, a, false, true, then');
    RekeyMoves(s1.meta, b, a);
    MovedBack(s.meta, Rekey(s.meta, a, b), s1.meta, Rekey(s1.meta, b, a),
              RenamePath(s1, parentB, b, parentA, a, false, true, then').sys.meta, a, b, ps);
  }

  lemma TimesKeepFacts(t: Store, t': Store, ps: set<Path>, a: Path, b: Path)
    requires UpToTimes(t, t', ps)
    ensures Known(t, b) ==> Known(t', b)
    ensures Free(t, a) ==> Free(t', a)
    ensures Allocated(t) ==> Allocated(t')
  {
  }

  // ---------- over runs ----------

  lemma RenameIs(H: Hasher, s: Sys, parentA: Path, a: Path, parentB: Path, b: Path, exchange: bool, ok: bool,
                 now: Timespec)
    ensures Respond(H, s, ERename(parentA, a, parentB, b, exchange, ok, now))
      == RenamePath(s, parentA, a, parentB, b, exchange, ok, now)
  {
  }

  /** In any sequential run, whatever b led to. */
  lemma RenameMovesLookup(H: Hasher, es: seq<Event>, parentA: Path, a: Path, parentB: Path, b: Path, exchange: bool,
                          ok: bool, now: Timespec)
    requires Sequential(H, es) && Known(After(H, es).meta, a) && a != b
    requires Respond(H, After(H, es), ERename(parentA, a, parentB, b, exchange, ok, now)).reply == Err(OK)
    ensures var s, s' := After(H, es), Step(H, After(H, es), ERename(parentA, a, parentB, b, exchange, ok, now));
      LookupMoved(s.meta, s'.meta, a, b, {parentA, parentB})
  {
    hide Respond;
    RunsKeepHeap(H, es);
    RenameIs(H, After(H, es), parentA, a, parentB, b, exchange, ok, now);
    RenameMoves(After(H, es), parentA, a, parentB, b, exchange, ok, now);
  }

  /** Renaming back restores both path-keyed maps, up to the parents' times. */
  lemma RenameBackRestores(H: Hasher, es: seq<Event>, parentA: Path, a: Path, parentB: Path, b: Path, now: Timespec,
                           then': Timespec)
    requires Sequential(H, es) && Known(After(H, es).meta, a) && Free(After(H, es).meta, b) && a != b
      && {parentA, parentB} !! {a, b}
    requires var s, there, back := After(H, es), ERename(parentA, a, parentB, b, false, true, now),
      ERename(parentB, b, parentA, a, false, true, then');
      Respond(H, s, there).reply == Err(OK) && Respond(H, Step(H, s, there), back).reply == Err(OK)
    ensures var s, there, back := After(H, es), ERename(parentA, a, parentB, b, false, true, now),
      ERename(parentB, b, parentA, a, false, true, then');
      Restored(s.meta, Step(H, Step(H, s, there), back).meta, {parentA, parentB})
  {
    hide Respond;
    RunsKeepHeap(H, es);
    RenameIs(H, After(H, es), parentA, a, parentB, b, false, true, now);
    RenameIs(H, Step(H, After(H, es), ERename(parentA, a, parentB, b, false, true, now)), parentB, b, parentA, a, false,
             true, then');
    RenameBack(After(H, es), parentA, a, parentB, b, now, then');
  }

  /** The tree of names follows: a file renamed to an unused name and back is where it was, with its bytes. */
  lemma RenameBackRestoresTree(fs: FS, a: Path, b: Path) returns (fs': FS)
    requires a in fs.dir && b !in fs.dir && b !in fs.folders && a !in fs.folders
    ensures Rename(fs, a, b) == Some(fs') && Rename(fs', b, a) == Some(fs)
    ensures Contents(fs') == (Contents(fs) - {a})[b := Contents(fs)[a]]
  {
    fs' := Rename(fs, a, b).value;
    assert ((fs.dir - {a})[b := fs.dir[a]] - {b})[a := fs.dir[a]] == fs.dir;
  }
}
