/** Stopping at any moment, deleting names behind OptiFS's back and restarting: the sweep restores the whole
    invariant. */
module Recovery {
  import opened Basics
  import opened Fingerprints
  import opened StoreModel
  import opened StoreRuns
  import opened Underlying
  import opened Session
  import opened WriteOnce
  import opened WriteOnceSteps
  import opened Transparency
  import opened Sharing
  import opened Counting

  /** Node entries and existing names are the same thing. */
  ghost predicate NodesMatchTree(s: Sys) {
    s.meta.nodes.Keys == s.fs.dir.Keys + s.fs.folders
  }

  ghost predicate CountsMatch(H: Hasher, s: Sys, k: Hist) {
    forall p | IsClosed(k, p) && k.blocks[p] != [] ::
      var h := Fingerprint(H, k.blocks[p]);
      p in s.fs.dir && s.fs.dir[p] in s.fs.inodes && h in s.meta.files
      && s.fs.inodes[s.fs.dir[p]].nlink == s.meta.files[h].refCount
  }

  lemma FullMeans(H: Hasher, s: Sys, k: Hist)
    requires Full(H, s, k) && CollisionFree(H, k.hashed)
    ensures NodesMatchTree(s) && CountsMatch(H, s, k)
  {
    forall p ensures p in s.meta.nodes <==> p in s.fs.dir || p in s.fs.folders {
      assert PathOk(H, k.hashed, View(s, k, p), p);
    }
    forall p | IsClosed(k, p) && k.blocks[p] != []
      ensures var h := Fingerprint(H, k.blocks[p]);
        p in s.fs.dir && s.fs.dir[p] in s.fs.inodes && h in s.meta.files
        && s.fs.inodes[s.fs.dir[p]].nlink == s.meta.files[h].refCount
    {
      FullLinkCount(H, s, k, p);
    }
  }

  lemma SurvivingFile(H: Hasher, s: Sys, k: Hist, s': Sys, gone: set<Path>, q: Path)
    requires AllRecorded(s, k) && Restricted(s, k, s', RecoveredHist(k, gone), gone) && IsClosed(k, q)
      && q !in gone
    requires q in s.meta.nodes && !s.meta.nodes[q].isDir
    ensures Get(s'.meta.nodes, q) == Get(s.meta.nodes, q) && MetaOf(s'.meta, q) == MetaOf(s.meta, q)
      && MetaOf(s.meta, q).Some?
  {
    assert HasRecord(s, q);
    assert Get(s'.meta.nodes, q) == Get(s.meta.nodes, q);
    assert IsClosed(RecoveredHist(k, gone), q);
  }

  lemma SurvivingFolder(s: Sys, s': Sys, gone: set<Path>, q: Path)
    requires Recovered(s, s', gone) && q in s.meta.nodes && s.meta.nodes[q].isDir && q in s.meta.dirs && q !in gone
    ensures Get(s'.meta.nodes, q) == Get(s.meta.nodes, q) && MetaOf(s'.meta, q) == MetaOf(s.meta, q)
      && MetaOf(s.meta, q).Some?
  {
  }

  /** A file that has not been released has no record, before or after. */
  lemma SurvivingUnreleased(s: Sys, s': Sys, gone: set<Path>, q: Path)
    requires FilesWF(s.meta.files) && Recovered(s, s', gone) && q in s.meta.nodes && q !in gone
    requires !s.meta.nodes[q].isDir && s.meta.nodes[q].hash == ZERO && s.meta.nodes[q].ref == 0
    ensures Get(s'.meta.nodes, q) == Get(s.meta.nodes, q) && MetaOf(s'.meta, q) == MetaOf(s.meta, q) == None
  {
    WithoutLive(s.meta.files, KeysOf(s.meta.nodes, s.meta.nodes.Keys * gone), ZERO, 0);
  }

  /** What the sweep leaves of a path that has not vanished. */
  ghost predicate Untouched(s: Sys, s': Sys, q: Path) {
    && Get(s'.meta.nodes, q) == Get(s.meta.nodes, q) && MetaOf(s'.meta, q) == MetaOf(s.meta, q)
    && XAttrMapOf(s'.meta, q) == XAttrMapOf(s.meta, q)
  }

  lemma SurvivorUntouched(H: Hasher, s: Sys, k: Hist, s': Sys, gone: set<Path>, q: Path)
    requires Full(H, s, k) && q in s.meta.nodes && q !in gone && s' == Recover(s, gone)
    requires Restricted(s, k, s', RecoveredHist(k, gone), gone) && Recovered(s, s', gone)
    ensures Untouched(s, s', q) && (MetaOf(s.meta, q).None? <==> Unreleased(k, q))
  {
    hide WF, FilesWF, Contents, Restricted, Recovered, Recover;
    SurvivorKind(H, s, k, q);
    if s.meta.nodes[q].isDir {
      SurvivingFolder(s, s', gone, q);
    } else if IsClosed(k, q) {
      SurvivingFile(H, s, k, s', gone, q);
    } else {
      SurvivingUnreleased(s, s', gone, q);
    }
    SameMapOf(s, s', gone, q);
  }

  lemma SurvivorKind(H: Hasher, s: Sys, k: Hist, q: Path)
    requires Full(H, s, k) && q in s.meta.nodes
    ensures if s.meta.nodes[q].isDir then q in s.meta.dirs && !Unreleased(k, q)
            else if IsClosed(k, q) then !Unreleased(k, q)
            else Unreleased(k, q) && s.meta.nodes[q].hash == ZERO && s.meta.nodes[q].ref == 0
  {
    assert PathOk(H, k.hashed, View(s, k, q), q);
  }

  lemma SameMapOf(s: Sys, s': Sys, gone: set<Path>, q: Path)
    requires Recovered(s, s', gone) && MetaOf(s'.meta, q) == MetaOf(s.meta, q)
    ensures XAttrMapOf(s'.meta, q) == XAttrMapOf(s.meta, q)
  {
    hide WF;
  }

  /** Recovery: at any moment of any clean run, whatever files are open and whatever set of names vanishes, the
      restart's sweep leaves node entries for exactly the names that exist, equal link and reference counts, and
      every survivor with the bytes, the node entry, the record and the attributes it had; a file that was being
      written is there as far as it was written, without a record. */
  lemma RecoveryRestoresInvariant(H: Hasher, es: seq<Event>, gone: set<Path>)
    requires CleanRun(H, es)
    ensures var s, k, s' := After(H, es), HistAfter(H, es), Recover(After(H, es), gone);
      && Full(H, s', RecoveredHist(k, gone)) && NodesMatchTree(s') && CountsMatch(H, s', RecoveredHist(k, gone))
      && s'.fs.dir == s.fs.dir - gone && Contents(s'.fs) == Contents(s.fs) - gone
      && forall q | q in s.meta.nodes && q !in gone ::
           Untouched(s, s', q) && (MetaOf(s'.meta, q).None? <==> Unreleased(k, q))
  {
    var s, k := After(H, es), HistAfter(H, es);
    CleanRunsAreFull(H, es);
    RecoverKeepsFull(H, s, k, gone);
    RecoverShape(H, s, k, gone);
    RecoveredRestricts(H, s, k, Recover(s, gone), gone);
    FullMeans(H, Recover(s, gone), RecoveredHist(k, gone));
    forall q | q in s.meta.nodes && q !in gone
      ensures Untouched(s, Recover(s, gone), q) && (MetaOf(s.meta, q).None? <==> Unreleased(k, q))
    {
      SurvivorUntouched(H, s, k, Recover(s, gone), gone, q);
    }
  }

  /** The sweep in whatever order the map was iterated, and the sweep done twice, give that same store. */
  lemma RecoveryIsDeterministic(H: Hasher, es: seq<Event>, gone: set<Path>, order: seq<Path>)
    requires CleanRun(H, es)
    requires var s, fs := After(H, es), RestartWithout(After(H, es).fs, gone);
      (set p | p in order) == s.meta.nodes.Keys - (fs.dir.Keys + fs.folders)
    ensures var s, s' := After(H, es), Recover(After(H, es), gone);
      SweepInOrder(s.meta, s.meta.nodes, order) == s'.meta
      && InsureIntegrity(s'.meta, s'.fs.dir.Keys + s'.fs.folders) == s'.meta
  {
    CleanRunsAreFull(H, es);
    var s, fs := After(H, es), RestartWithout(After(H, es).fs, gone);
    SweepOrderIrrelevant(s.meta, fs.dir.Keys + fs.folders, order);
    SweepIdempotent(s.meta, fs.dir.Keys + fs.folders);
  }
}
