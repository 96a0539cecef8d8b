/** What sharing adds up to: link counts, reference counts, and how much the tree stores. */
module Counting {
  import opened Basics
  import opened Fingerprints
  import opened StoreModel
  import opened Underlying
  import opened Session
  import opened WriteOnce
  import opened Transparency
  import opened Sharing

  // ---------- counting ----------

  ghost predicate Injective<K, V>(m: map<K, V>) {
    forall x, y | x in m && y in m && m[x] == m[y] :: x == y
  }

  lemma InjectiveSize<K, V>(m: map<K, V>)
    requires Injective(m)
    ensures |m.Values| == |m.Keys|
  {
    if m.Keys == {} {
      assert m.Values == {};
    } else {
      var k :| k in m.Keys;
      var rest := m - {k};
      InjectiveSize(rest);
      assert rest.Keys == m.Keys - {k};
      assert m.Values == rest.Values + {m[k]};
      assert m[k] !in rest.Values;
    }
  }

  /** A set covered by the disjoint images of two injective maps. */
  lemma ImagesDivide<K, L, V>(all: set<V>, m: map<K, V>, n: map<L, V>)
    requires Injective(m) && Injective(n) && m.Values <= all && n.Values <= all
    requires forall v | v in all :: v in m.Values || v in n.Values
    requires forall x, y | x in m && y in n :: m[x] != n[y]
    ensures |all| == |n.Keys| + |m.Keys|
  {
    InjectiveSize(m);
    InjectiveSize(n);
    assert all == m.Values + n.Values;
    assert m.Values !! n.Values;
  }

  /** The released files of content h. */
  ghost function Members(s: Sys, k: Hist, h: Hash): set<Path> {
    set p | p in k.blocks && Class(s, k, p) == Some(h)
  }

  /** Which reference each member of a class holds. */
  ghost function RefsOf(s: Sys, k: Hist, h: Hash): map<Path, nat> {
    map p | p in Members(s, k, h) && p in s.meta.nodes :: s.meta.nodes[p].ref
  }

  lemma MemberHasReference(s: Sys, k: Hist, h: Hash, p: Path)
    requires AllRecorded(s, k) && p in Members(s, k, h)
    ensures p in RefsOf(s, k, h) && Live(s.meta.files, h, RefsOf(s, k, h)[p])
    ensures s.meta.files[h].list[RefsOf(s, k, h)[p]].path == p
  {
    assert HasRecord(s, p);
  }

  lemma ReferenceHasMember(s: Sys, k: Hist, h: Hash, r: nat)
    requires AllNamed(s.meta.files) && RecordsOk(s, k) && Live(s.meta.files, h, r) && h != ZERO
    ensures s.meta.files[h].list[r].path in RefsOf(s, k, h) && RefsOf(s, k, h)[s.meta.files[h].list[r].path] == r
  {
    assert RecordOk(s, k, h, r);
  }

  lemma RefsAreInjective(s: Sys, k: Hist, h: Hash)
    requires AllRecorded(s, k)
    ensures RefsOf(s, k, h).Keys == Members(s, k, h) && Injective(RefsOf(s, k, h))
  {
    forall p | p in Members(s, k, h)
      ensures p in RefsOf(s, k, h) && Live(s.meta.files, h, RefsOf(s, k, h)[p])
        && s.meta.files[h].list[RefsOf(s, k, h)[p]].path == p
    {
      MemberHasReference(s, k, h, p);
    }
  }

  lemma RefsAreAll(s: Sys, k: Hist, h: Hash)
    requires AllRecorded(s, k) && AllNamed(s.meta.files) && RecordsOk(s, k) && h in s.meta.files && h != ZERO
    ensures RefsOf(s, k, h).Values == s.meta.files[h].list.Keys
  {
    var refs := RefsOf(s, k, h);
    forall r | r in s.meta.files[h].list ensures r in refs.Values {
      assert Live(s.meta.files, h, r);
      ReferenceHasMember(s, k, h, r);
    }
    forall p | p in refs ensures refs[p] in s.meta.files[h].list {
      MemberHasReference(s, k, h, p);
    }
  }

  lemma MembersAreReferences(s: Sys, k: Hist, h: Hash)
    requires AllRecorded(s, k) && AllNamed(s.meta.files) && FilesWF(s.meta.files) && RecordsOk(s, k)
    requires h in s.meta.files && h != ZERO
    ensures |Members(s, k, h)| == s.meta.files[h].refCount
  {
    RefsAreInjective(s, k, h);
    RefsAreAll(s, k, h);
    InjectiveSize(RefsOf(s, k, h));
  }

  lemma MembersAreNames(s: Sys, k: Hist, p: Path, h: Hash)
    requires Shared(s, k) && p in s.fs.dir && Class(s, k, p) == Some(h)
      && forall q | q in Members(s, k, h) :: q in s.fs.dir
    ensures Names(s.fs.dir, s.fs.dir[p]) == Members(s, k, h)
  {
  }

  lemma MembersShareTheInode(H: Hasher, s: Sys, k: Hist, p: Path, h: Hash)
    requires Full(H, s, k) && p in s.fs.dir && Class(s, k, p) == Some(h)
    ensures Names(s.fs.dir, s.fs.dir[p]) == Members(s, k, h)
  {
    forall q | q in Members(s, k, h) ensures q in s.fs.dir {
      assert PathOk(H, k.hashed, View(s, k, q), q);
    }
    MembersAreNames(s, k, p, h);
  }

  /** Released files share an inode exactly when they were written by the same blocks, provided they are not
      empty; a file that is empty or still being written shares its inode with nobody. */
  lemma OneInodePerContent(H: Hasher, es: seq<Event>, p: Path, q: Path)
    requires CleanRun(H, es)
    ensures var s, k := After(H, es), HistAfter(H, es);
      p in s.fs.dir && q in s.fs.dir && p != q ==>
        p in k.blocks && q in k.blocks &&
        (s.fs.dir[p] == s.fs.dir[q] <==>
           IsClosed(k, p) && IsClosed(k, q) && k.blocks[p] != []
           && Fingerprint(H, k.blocks[p]) == Fingerprint(H, k.blocks[q]) && k.blocks[p] == k.blocks[q])
  {
    var s, k := After(H, es), HistAfter(H, es);
    CleanRunsAreFull(H, es);
    SharingMeansEqualBlocks(H, s, k, p, q);
  }

  lemma SharingMeansEqualBlocks(H: Hasher, s: Sys, k: Hist, p: Path, q: Path)
    requires PathsOk(H, s, k) && Shared(s, k) && CollisionFree(H, k.hashed)
    ensures p in s.fs.dir && q in s.fs.dir && p != q ==>
        p in k.blocks && q in k.blocks &&
        (s.fs.dir[p] == s.fs.dir[q] <==>
           IsClosed(k, p) && IsClosed(k, q) && k.blocks[p] != []
           && Fingerprint(H, k.blocks[p]) == Fingerprint(H, k.blocks[q]) && k.blocks[p] == k.blocks[q])
  {
    if p in s.fs.dir && q in s.fs.dir && p != q {
      ClassOf(H, s, k, p);
      ClassOf(H, s, k, q);
      if IsClosed(k, p) && IsClosed(k, q) {
        FingerprintIdentifiesBlocks(H, k.blocks[p], k.blocks[q], k.hashed);
      }
    }
  }

  /** The class of a file is the fingerprint of its blocks, once it is closed and unless it is empty. */
  lemma ClassOf(H: Hasher, s: Sys, k: Hist, p: Path)
    requires PathsOk(H, s, k) && CollisionFree(H, k.hashed) && p in s.fs.dir
    ensures p in k.blocks && (IsClosed(k, p) ==> Inputs(H, k.blocks[p]) <= k.hashed)
    ensures Class(s, k, p) == if IsClosed(k, p) && k.blocks[p] != [] then Some(Fingerprint(H, k.blocks[p])) else None
  {
    assert PathOk(H, k.hashed, View(s, k, p), p);
    if IsClosed(k, p) {
      FingerprintIdentifiesBlocks(H, k.blocks[p], [], k.hashed);
    }
  }

  /** The link count of a released non-empty file's inode is the reference count of its content. */
  lemma LinkCountIsReferenceCount(H: Hasher, es: seq<Event>, p: Path)
    requires CleanRun(H, es) && IsClosed(HistAfter(H, es), p) && HistAfter(H, es).blocks[p] != []
    ensures var s, h := After(H, es), Fingerprint(H, HistAfter(H, es).blocks[p]);
      p in s.fs.dir && s.fs.dir[p] in s.fs.inodes && h in s.meta.files
      && s.fs.inodes[s.fs.dir[p]].nlink == s.meta.files[h].refCount
  {
    CleanRunsAreFull(H, es);
    FullLinkCount(H, After(H, es), HistAfter(H, es), p);
  }

  lemma FullLinkCount(H: Hasher, s: Sys, k: Hist, p: Path)
    requires Full(H, s, k) && IsClosed(k, p) && k.blocks[p] != [] && CollisionFree(H, k.hashed)
    ensures var h := Fingerprint(H, k.blocks[p]);
      p in s.fs.dir && s.fs.dir[p] in s.fs.inodes && h in s.meta.files
      && s.fs.inodes[s.fs.dir[p]].nlink == s.meta.files[h].refCount
  {
    hide Respond;
    var h := Fingerprint(H, k.blocks[p]);
    assert PathOk(H, k.hashed, View(s, k, p), p);
    FingerprintIdentifiesBlocks(H, k.blocks[p], k.blocks[p], k.hashed);
    assert HasRecord(s, p);
    MembersShareTheInode(H, s, k, p, h);
    MembersAreReferences(s, k, h);
  }

  /** Released files and live records of non-empty content correspond one to one through their keys. */
  lemma OwnershipBijection(H: Hasher, es: seq<Event>, h: Hash, r: nat)
    requires CleanRun(H, es) && h != ZERO
    ensures var s, k := After(H, es), HistAfter(H, es);
      && (Live(s.meta.files, h, r) ==> Owns(View(s, k, s.meta.files[h].list[r].path), h, r))
      && (forall q | Owns(View(s, k, q), h, r) :: Live(s.meta.files, h, r) && s.meta.files[h].list[r].path == q)
  {
    var s, k := After(H, es), HistAfter(H, es);
    CleanRunsAreFull(H, es);
    assert RecordOk(s, k, h, r);
    forall q | Owns(View(s, k, q), h, r) ensures Live(s.meta.files, h, r) && s.meta.files[h].list[r].path == q {
      assert HasRecord(s, q);
    }
  }

  /** The sum of the reference counts of the contents in hs. */
  ghost function TotalReferences(files: Files, hs: set<Hash>): nat
    requires hs <= files.Keys
  {
    if hs == {} then 0 else files[Pick(hs)].refCount + TotalReferences(files, hs - {Pick(hs)})
  }

  ghost function Pick(hs: set<Hash>): (h: Hash)
    requires hs != {}
    ensures h in hs
  {
    var h :| h in hs; h
  }

  ghost function MembersOf(s: Sys, k: Hist, hs: set<Hash>): set<Path> {
    set p | p in k.blocks && Class(s, k, p).Some? && Class(s, k, p).value in hs
  }

  lemma MembersSplit(s: Sys, k: Hist, hs: set<Hash>, h: Hash)
    requires h in hs
    ensures MembersOf(s, k, hs) == Members(s, k, h) + MembersOf(s, k, hs - {h})
    ensures Members(s, k, h) !! MembersOf(s, k, hs - {h})
  {
  }

  lemma TotalIsMembers(s: Sys, k: Hist, hs: set<Hash>)
    requires AllRecorded(s, k) && AllNamed(s.meta.files) && FilesWF(s.meta.files) && RecordsOk(s, k)
    requires hs <= s.meta.files.Keys && ZERO !in hs
    ensures TotalReferences(s.meta.files, hs) == |MembersOf(s, k, hs)|
  {
    if hs == {} {
      assert MembersOf(s, k, hs) == {};
    } else {
      var h := Pick(hs);
      TotalIsMembers(s, k, hs - {h});
      MembersAreReferences(s, k, h);
      MembersSplit(s, k, hs, h);
    }
  }

  /** Conservation: all references to non-empty content together are as many as the released non-empty files. */
  lemma ReferencesCountFiles(H: Hasher, es: seq<Event>)
    requires CleanRun(H, es)
    ensures var s, k := After(H, es), HistAfter(H, es);
      TotalReferences(s.meta.files, s.meta.files.Keys - {ZERO})
      == |set p | p in k.blocks && IsClosed(k, p) && k.blocks[p] != []|
  {
    var s, k := After(H, es), HistAfter(H, es);
    CleanRunsAreFull(H, es);
    TotalIsMembers(s, k, s.meta.files.Keys - {ZERO});
    MembersAreFiles(H, s, k);
  }

  lemma MembersAreFiles(H: Hasher, s: Sys, k: Hist)
    requires PathsOk(H, s, k) && AllRecorded(s, k) && CollisionFree(H, k.hashed)
    ensures MembersOf(s, k, s.meta.files.Keys - {ZERO}) == set p | p in k.blocks && IsClosed(k, p) && k.blocks[p] != []
  {
    forall p | p in k.blocks
      ensures p in MembersOf(s, k, s.meta.files.Keys - {ZERO}) <==> IsClosed(k, p) && k.blocks[p] != []
    {
      assert PathOk(H, k.hashed, View(s, k, p), p);
      if IsClosed(k, p) {
        assert HasRecord(s, p);
        FingerprintIdentifiesBlocks(H, k.blocks[p], k.blocks[p], k.hashed);
      }
    }
  }

  // ---------- what is stored ----------

  ghost function Unclassed(s: Sys, k: Hist): set<Path> {
    set p | p in s.fs.dir && Class(s, k, p).None?
  }

  /** Space: with no file open, the tree stores one inode per distinct non-empty content and one per empty
      file, however many names there are. */
  lemma OneCopyStored(H: Hasher, es: seq<Event>)
    requires CleanRun(H, es) && After(H, es).handles == map[]
    ensures var s, k := After(H, es), HistAfter(H, es);
      |s.fs.inodes.Keys| == |s.meta.files.Keys - {ZERO}| + |Unclassed(s, k)|
  {
    CleanRunsAreFull(H, es);
    FullStorage(H, After(H, es), HistAfter(H, es));
  }

  ghost function NamedBy(s: Sys, h: Hash): Path
    requires h in s.meta.files
  {
    if Recent(s.meta.files[h]).Some? then Recent(s.meta.files[h]).value.path else []
  }

  lemma NamedByClass(H: Hasher, s: Sys, k: Hist, h: Hash)
    requires Inv(H, s, k) && AllNamed(s.meta.files) && h in s.meta.files && h != ZERO
    ensures NamedBy(s, h) in s.fs.dir && Class(s, k, NamedBy(s, h)) == Some(h)
  {
    var r := RecentIsLargest(s.meta.files[h]);
    assert Live(s.meta.files, h, r) && RecordOk(s, k, h, r);
    assert PathOk(H, k.hashed, View(s, k, NamedBy(s, h)), NamedBy(s, h));
  }

  /** The inode that stores each content, and the inode of each file that shares with nobody. */
  ghost function Copies(s: Sys): map<Hash, nat> {
    map h | h in s.meta.files && h != ZERO && NamedBy(s, h) in s.fs.dir :: s.fs.dir[NamedBy(s, h)]
  }

  ghost function Own(s: Sys, k: Hist): map<Path, nat> {
    map p | p in Unclassed(s, k) :: s.fs.dir[p]
  }

  /** Every content is named by a file of its class. */
  ghost predicate Represented(s: Sys, k: Hist) {
    forall h | h in s.meta.files && h != ZERO :: NamedBy(s, h) in s.fs.dir && Class(s, k, NamedBy(s, h)) == Some(h)
  }

  lemma StorageIsInjective(s: Sys, k: Hist)
    requires Represented(s, k) && Shared(s, k)
    ensures Copies(s).Keys == s.meta.files.Keys - {ZERO} && Injective(Copies(s))
    ensures Own(s, k).Keys == Unclassed(s, k) && Injective(Own(s, k))
  {
  }

  lemma StorageIsDisjoint(s: Sys, k: Hist, h: Hash, p: Path)
    requires Represented(s, k) && Shared(s, k) && h in Copies(s) && p in Own(s, k)
    ensures Copies(s)[h] != Own(s, k)[p]
  {
  }

  lemma NameOf(s: Sys, i: nat) returns (p: Path)
    requires WF(s.fs) && s.fs.fds.Keys == {} && i in s.fs.inodes
    ensures p in s.fs.dir && s.fs.dir[p] == i
  {
    assert Names(s.fs.dir, i) != {};
    p :| p in Names(s.fs.dir, i);
  }

  lemma EveryInodeIsStored(s: Sys, k: Hist, i: nat)
    requires Represented(s, k) && Shared(s, k) && AllRecorded(s, k)
    requires WF(s.fs) && s.fs.fds.Keys == {} && i in s.fs.inodes
    ensures i in Own(s, k).Values || i in Copies(s).Values
  {
    var p := NameOf(s, i);
    if Class(s, k, p).None? {
      assert Own(s, k)[p] == i;
    } else {
      assert HasRecord(s, p);
      assert Copies(s)[Class(s, k, p).value] == i;
    }
  }

  lemma FullStorage(H: Hasher, s: Sys, k: Hist)
    requires Full(H, s, k) && s.handles == map[]
    ensures |s.fs.inodes.Keys| == |s.meta.files.Keys - {ZERO}| + |Unclassed(s, k)|
  {
    forall h | h in s.meta.files && h != ZERO
      ensures NamedBy(s, h) in s.fs.dir && Class(s, k, NamedBy(s, h)) == Some(h)
    {
      NamedByClass(H, s, k, h);
    }
    StoredInodes(s, k);
  }

  lemma InodesAreUsed(s: Sys, k: Hist)
    requires WF(s.fs)
    ensures Own(s, k).Values <= s.fs.inodes.Keys && Copies(s).Values <= s.fs.inodes.Keys
  {
  }

  lemma StoredInodes(s: Sys, k: Hist)
    requires Represented(s, k) && Shared(s, k) && AllRecorded(s, k) && WF(s.fs) && s.fs.fds.Keys == {}
    ensures |s.fs.inodes.Keys| == |s.meta.files.Keys - {ZERO}| + |Unclassed(s, k)|
  {
    var own, copies := Own(s, k), Copies(s);
    StorageIsInjective(s, k);
    InodesAreUsed(s, k);
    forall i | i in s.fs.inodes ensures i in own.Values || i in copies.Values {
      EveryInodeIsStored(s, k, i);
    }
    forall p, h | p in own && h in copies ensures own[p] != copies[h] {
      StorageIsDisjoint(s, k, h, p);
    }
    ImagesDivide(s.fs.inodes.Keys, own, copies);
  }
}
