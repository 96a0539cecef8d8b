/** Simulated uniqueness: attributes belong to paths, even when the paths are links to one inode. */
module Uniqueness {
  import opened Basics
  import opened Fingerprints
  import opened StoreModel
  import opened Session
  import opened SequentialRuns
  import opened WriteOnce
  import opened Transparency
  import opened Sharing
  import opened AttributeMaps

  // ---------- no two records share an attribute map ----------

  lemma LookupKeepsHeap(H: Hasher, s: Sys, k: Hist, p: Path, x: Stat)
    requires Inv(H, s, k)
    ensures LookupPath(H, s, p, x).sys.meta.xattrs == s.meta.xattrs
      && LookupPath(H, s, p, x).sys.meta.next == s.meta.next
  {
    assert PathOk(H, k.hashed, View(s, k, p), p);
  }

  lemma {:induction false} WriteOnceIsSequential(H: Hasher, es: seq<Event>)
    requires WriteOnceRun(H, es)
    ensures Sequential(H, es)
  {
    forall i | 0 <= i < |es| ensures Headroom(H, After(H, es[..i]), es[i]) {
      assert Allowed(H, After(H, es[..i]), HistAfter(H, es[..i]), es[i]);
    }
  }

  /** A file that is written once has no record yet when it is closed. */
  lemma WriteOnceSharesNothing(H: Hasher, s: Sys, k: Hist, e: Event)
    requires Inv(H, s, k)
    ensures !Shares(H, s, e)
  {
    if e.ERelease? && e.fd in s.handles && s.handles[e.fd].writing {
      var p := s.handles[e.fd].path;
      assert Get(k.open, p) == Some(e.fd);
      WritingFacts(H, s, k, p);
      assert PathOk(H, k.hashed, View(s, k, p), p);
      assert s.handles[e.fd].hash == ZERO && s.handles[e.fd].ref == 0;
    }
  }

  /** In every write-once run, failures included, all live records have attribute maps of their own. */
  lemma AttributeMapsAreDistinct(H: Hasher, es: seq<Event>)
    requires WriteOnceRun(H, es) && CollisionFree(H, HistAfter(H, es).hashed)
    ensures XInv(After(H, es).meta)
  {
    WriteOnceIsSequential(H, es);
    forall i | 0 <= i < |es| ensures !Shares(H, After(H, es[..i]), es[i]) {
      WriteOncePrefix(H, es, i);
      RunKeepsInv(H, es[..i]);
      WriteOnceSharesNothing(H, After(H, es[..i]), HistAfter(H, es[..i]), es[i]);
    }
    MapsStayDistinct(H, es);
  }

  // ---------- independence ----------

  /** An attribute operation on p. */
  predicate OnAttributes(e: Event) { e.ESetattr? || e.ESetxattr? || e.ERemovexattr? }

  /** Everything a user can see of q's attributes. */
  ghost predicate SameAttributes(s: Sys, s': Sys, q: Path) {
    (forall f, x :: Getattr(s', q, f, x) == Getattr(s, q, f, x)) && XAttrMapOf(s'.meta, q) == XAttrMapOf(s.meta, q)
  }

  /** Two known paths have different places for their records, unless neither place holds one. */
  ghost predicate Apart(s: Store, p: Path, q: Path) {
    MetaOf(s, p).None? || LocOf(s, q) != LocOf(s, p)
  }

  lemma SetattrIndependent(s: Sys, p: Path, q: Path, i: SetAttrIn, wantsOut: bool, now: Timespec)
    requires Apart(s.meta, p, q)
    ensures SameAttributes(s, Setattr(s, p, i, wantsOut, now).sys, q)
  {
    if MetaOf(s.meta, p).Some? && LocOf(s.meta, q).Some? {
      var m := SetAttributes(MetaOf(s.meta, p).value, i, wantsOut, now).0;
      assert MetaAt(Put(s.meta, LocOf(s.meta, p).value, m), LocOf(s.meta, q).value)
        == MetaAt(s.meta, LocOf(s.meta, q).value);
    }
  }

  lemma XattrIndependent(s: Sys, s': Sys, p: Path, q: Path, m: XAttrs)
    requires XInv(s.meta) && Apart(s.meta, p, q)
    requires XAttrOf(s.meta, p).Some?
      && s' == s.(meta := s.meta.(xattrs := s.meta.xattrs[XAttrOf(s.meta, p).value := m]))
    ensures SameAttributes(s, s', q)
  {
    if XAttrOf(s.meta, q).Some? {
      assert XAt(s.meta, LocOf(s.meta, p).value) == XAttrOf(s.meta, p)
        && XAt(s.meta, LocOf(s.meta, q).value) == XAttrOf(s.meta, q);
    }
  }

  lemma FilesApart(s: Sys, k: Hist, p: Path, q: Path)
    requires AllRecorded(s, k) && IsClosed(k, p) && p != q && p in s.meta.nodes && s.meta.nodes[p].ref >= 1
    requires q in s.meta.nodes && !s.meta.nodes[q].isDir ==> IsClosed(k, q) || s.meta.nodes[q].ref == 0
    ensures Apart(s.meta, p, q)
  {
    assert HasRecord(s, p);
    assert IsClosed(k, q) ==> HasRecord(s, q);
  }

  lemma FullApart(H: Hasher, s: Sys, k: Hist, p: Path, q: Path)
    requires Full(H, s, k) && p != q
    ensures Apart(s.meta, p, q)
  {
    assert PathOk(H, k.hashed, View(s, k, p), p) && PathOk(H, k.hashed, View(s, k, q), q);
    if p in s.meta.nodes && !s.meta.nodes[p].isDir && IsClosed(k, p) {
      FilesApart(s, k, p, q);
    }
  }

  /** Whatever attribute operation is done on p, every other path's attributes stay as they are, even when
      both are links to one inode. */
  lemma AttributesAreIndependent(H: Hasher, es: seq<Event>, e: Event, q: Path)
    requires CleanRun(H, es) && OnAttributes(e) && e.p != q
    ensures SameAttributes(After(H, es), Step(H, After(H, es), e), q)
  {
    var s, k := After(H, es), HistAfter(H, es);
    CleanRunsAreFull(H, es);
    AttributeMapsAreDistinct(H, es);
    FullApart(H, s, k, e.p, q);
    ApartMeansIndependent(H, s, e, q);
  }

  lemma ApartMeansIndependent(H: Hasher, s: Sys, e: Event, q: Path)
    requires XInv(s.meta) && OnAttributes(e) && Apart(s.meta, e.p, q)
    ensures SameAttributes(s, Step(H, s, e), q)
  {
    if e.ESetattr? {
      SetattrIndependent(s, e.p, q, e.i, e.wantsOut, e.now);
    } else if e.p != ROOT && XAttrOf(s.meta, e.p).Some? {
      var m := s.meta.xattrs[XAttrOf(s.meta, e.p).value];
      XattrIndependent(s, Step(H, s, e), e.p, q,
                       if e.ESetxattr? then SetX(m, e.attr, e.data, e.flags).0 else RemoveX(m, e.attr).0);
    }
  }

  /** A change of mode, and of nothing else. */
  function ModeOnly(mode: nat): SetAttrIn {
    SetAttrIn(Some(mode), None, None, true, None, None, None, None)
  }

  const NO_STAT := Stat(0, 0, 0, 0, 0, 0, 0, 0, 0, 0, 0, EPOCH, EPOCH, EPOCH, [0, 0, 0])

  /** Paths that hold the key of one live record see each other's attributes. */
  lemma Crosstalk(s: Sys, p: Path, q: Path, mode: nat)
    requires !Apart(s.meta, p, q)
    ensures var s' := Setattr(s, p, ModeOnly(mode), true, EPOCH).sys;
      MetaOf(s.meta, q).Some? && MetaOf(s'.meta, q) == Some(MetaOf(s.meta, q).value.(mode := mode))
  {
    var m := MetaOf(s.meta, p).value;
    assert SetAttributes(m, ModeOnly(mode), true, EPOCH).0 == m.(mode := mode);
  }

  lemma CrosstalkShows(H: Hasher, s: Sys, p: Path, q: Path) returns (e: Event)
    requires !Apart(s.meta, p, q)
    ensures OnAttributes(e) && e.p == p && !SameAttributes(s, Step(H, s, e), q)
  {
    var mode := if MetaOf(s.meta, q).Some? && MetaOf(s.meta, q).value.mode == 0 then 1 else 0;
    e := ESetattr(p, ModeOnly(mode), true, EPOCH);
    Crosstalk(s, p, q, mode);
    var s' := Setattr(s, p, ModeOnly(mode), true, EPOCH).sys;
    assert Step(H, s, e) == s';
    assert Getattr(s', q, None, NO_STAT).value.mode != Getattr(s, q, None, NO_STAT).value.mode;
  }

  /** In write-once runs with failing Releases the claim needs a condition, and this is it: an attribute
      operation on p can reach q exactly when the two node entries hold the key of one live record. */
  lemma IndependenceCondition(H: Hasher, es: seq<Event>, p: Path, q: Path)
    requires WriteOnceRun(H, es) && CollisionFree(H, HistAfter(H, es).hashed)
    ensures var s := After(H, es);
      (forall e | OnAttributes(e) && e.p == p :: SameAttributes(s, Step(H, s, e), q)) <==> Apart(s.meta, p, q)
  {
    AttributeMapsAreDistinct(H, es);
    IndependenceIff(H, After(H, es), p, q);
  }

  lemma IndependenceIff(H: Hasher, s: Sys, p: Path, q: Path)
    requires XInv(s.meta)
    ensures (forall e | OnAttributes(e) && e.p == p :: SameAttributes(s, Step(H, s, e), q)) <==> Apart(s.meta, p, q)
  {
    if Apart(s.meta, p, q) {
      forall e | OnAttributes(e) && e.p == p ensures SameAttributes(s, Step(H, s, e), q) {
        ApartMeansIndependent(H, s, e, q);
      }
    } else {
      var e := CrosstalkShows(H, s, p, q);
    }
  }
}
