/** Stable virtual inodes: between Create and Unlink every Lookup of a path reports one inode number, although
    lookups before Release compute it afresh and Release swaps the inode underneath. */
module StableInode {
  import opened Basics
  import opened Fingerprints
  import opened StoreModel
  import opened Session
  import opened SequentialRuns
  import opened WriteOnce
  import opened WriteOnceSteps
  import opened WriteOnceRelease
  import opened Transparency
  import opened Sharing

  /** The inode number a Lookup of p reports; x is what else lstat says. */
  ghost function LookupIno(H: Hasher, s: Sys, p: Path, x: Stat): nat {
    LookupNode(H, s, p, x).stable.ino
  }

  /** Files that have not been released are numbered by the inode they have. */
  ghost predicate Numbered(H: Hasher, s: Sys, k: Hist) {
    forall p | Unreleased(k, p) ::
      p in s.meta.nodes && p in s.fs.dir && s.meta.nodes[p].stable.ino == VirtualIno(H, p, s.fs.dev, s.fs.dir[p])
  }

  /** A step that renumbers no file, and moves none that stays unreleased. */
  ghost predicate SameNumbers(s: Sys, k: Hist, s': Sys, k': Hist) {
    && s'.fs.dev == s.fs.dev
    && (forall p | Unreleased(k', p) :: Unreleased(k, p) && Get(s'.fs.dir, p) == Get(s.fs.dir, p))
    && (forall p | p in k.blocks && p in k'.blocks && p in s.meta.nodes ::
          p in s'.meta.nodes && s'.meta.nodes[p].stable.ino == s.meta.nodes[p].stable.ino)
    && (forall p | Unreleased(k', p) :: p in k.blocks && p in k'.blocks)
  }

  lemma SameNumbersKeep(H: Hasher, s: Sys, k: Hist, s': Sys, k': Hist)
    requires Numbered(H, s, k) && SameNumbers(s, k, s', k')
    ensures Numbered(H, s', k')
  {
    forall p | Unreleased(k', p)
      ensures p in s'.meta.nodes && p in s'.fs.dir
        && s'.meta.nodes[p].stable.ino == VirtualIno(H, p, s'.fs.dev, s'.fs.dir[p])
    {
      assert Get(s'.fs.dir, p) == Get(s.fs.dir, p);
    }
  }

  ghost predicate KeepsIno(s: Sys, k: Hist, s': Sys, k': Hist) {
    forall p | p in k.blocks && p in k'.blocks && p in s.meta.nodes ::
      p in s'.meta.nodes && s'.meta.nodes[p].stable.ino == s.meta.nodes[p].stable.ino
  }

  lemma UnreleasedHaveBlocks(H: Hasher, s: Sys, k: Hist)
    requires PathsOk(H, s, k)
    ensures forall p | Unreleased(k, p) :: p in k.blocks
  {
    forall p | Unreleased(k, p) ensures p in k.blocks {
      assert PathOk(H, k.hashed, View(s, k, p), p);
    }
  }

  lemma CreatedNumbers(H: Hasher, s: Sys, k: Hist, s': Sys, p: Path, fd: nat, ino: nat, info: NodeInfo)
    requires Numbered(H, s, k) && Created(s, s', p, fd, ino, info) && p !in k.blocks && !Unreleased(k, p)
    requires info.stable.ino == VirtualIno(H, p, s.fs.dev, ino)
    ensures Numbered(H, s', CreatedHist(k, p, fd)) && KeepsIno(s, k, s', CreatedHist(k, p, fd))
  {
  }

  lemma CreateNumbers(H: Hasher, s: Sys, k: Hist, e: Event)
    requires Inv(H, s, k) && Numbered(H, s, k) && Allowed(H, s, k, e) && e.ECreate?
    ensures Numbered(H, Step(H, s, e), Recorded(H, s, k, e)) && KeepsIno(s, k, Step(H, s, e), Recorded(H, s, k, e))
  {
    hide Respond;
    var info := CreateEvent(H, s, k, e);
    CreatedNumbers(H, s, k, Step(H, s, e), e.p, e.fd, e.ino, info);
  }

  lemma ReleasedNumbers(s: Sys, k: Hist, s': Sys, k': Hist, p: Path, fd: nat, h: Hash, o: Env, dir: map<Path, nat>,
                        e: Ending,
                        q: Option<Path>)
    requires Released(s, s', p, fd, h, dir, e) && Branch(s, k, s', p, h, o, dir, e, q)
    requires k'.blocks == k.blocks && k'.open == k.open - {p} && k'.left == k.left && p !in k.left
    requires forall x | Unreleased(k, x) :: x in k.blocks
    ensures SameNumbers(s, k, s', k')
  {
  }

  lemma ReleaseNumbers(H: Hasher, s: Sys, k: Hist, e: Event)
    requires Inv(H, s, k) && Allowed(H, s, k, e) && e.ERelease?
    requires CollisionFree(H, Recorded(H, s, k, e).hashed)
    ensures SameNumbers(s, k, Step(H, s, e), Recorded(H, s, k, e))
  {
    UnreleasedHaveBlocks(H, s, k);
    if s.handles[e.fd].writing {
      assert Get(k.open, e.p) == Some(e.fd);
      WritingFacts(H, s, k, e.p);
      var dir, ending, q := ReleaseBranch(H, s, k, e.fd, e.p, e.o);
      ReleaseIs(H, s, e.fd, e.p, e.o);
      ReleasedNumbers(s, k, Step(H, s, e), Recorded(H, s, k, e), e.p, e.fd, FinalHash(H, s, e.p), e.o, dir, ending, q);
    } else {
      ReadCloseEvent(H, s, k, e);
    }
  }

  lemma UnlinkedNumbers(s: Sys, k: Hist, s': Sys, p: Path)
    requires Unlinked(s, s', p) && p !in k.open && forall x | Unreleased(k, x) :: x in k.blocks
    ensures SameNumbers(s, k, s', UnlinkedHist(k, p))
  {
  }

  lemma UnlinkNumbers(H: Hasher, s: Sys, k: Hist, e: Event)
    requires Inv(H, s, k) && Allowed(H, s, k, e) && e.EUnlink?
    ensures SameNumbers(s, k, Step(H, s, e), Recorded(H, s, k, e))
  {
    hide Respond;
    UnreleasedHaveBlocks(H, s, k);
    UnlinkEvent(H, s, k, e);
    if e.ok && e.p in s.fs.dir {
      UnlinkedNumbers(s, k, Step(H, s, e), e.p);
    }
  }

  lemma FolderPath(H: Hasher, s: Sys, k: Hist, p: Path)
    requires PathsOk(H, s, k)
    ensures p in s.fs.folders ==> p !in k.blocks && p !in k.open
  {
    assert PathOk(H, k.hashed, View(s, k, p), p);
  }

  lemma FolderNumbers(H: Hasher, s: Sys, k: Hist, e: Event)
    requires Inv(H, s, k) && Allowed(H, s, k, e) && (e.EMkdir? || e.ERmdir?)
    ensures SameNumbers(s, k, Step(H, s, e), k)
  {
    hide Respond;
    UnreleasedHaveBlocks(H, s, k);
    if e.EMkdir? {
      var info := MkdirEvent(H, s, k, e);
    } else {
      FolderPath(H, s, k, e.p);
      RmdirEvent(H, s, e);
    }
  }

  lemma LookupNumbers(H: Hasher, s: Sys, k: Hist, e: Event)
    requires Inv(H, s, k) && Numbered(H, s, k) && e.ELookup?
    ensures SameNumbers(s, k, Step(H, s, e), k)
  {
    hide Respond;
    UnreleasedHaveBlocks(H, s, k);
    var info := LookupEvent(H, s, k, e);
  }

  lemma RecoverNumbers(H: Hasher, s: Sys, k: Hist, e: Event)
    requires Inv(H, s, k) && Allowed(H, s, k, e) && e.ERecover?
    ensures SameNumbers(s, k, Step(H, s, e), Recorded(H, s, k, e))
  {
    UnreleasedHaveBlocks(H, s, k);
    RecoverShape(H, s, k, e.gone);
  }

  lemma QuietNumbers(H: Hasher, s: Sys, k: Hist, e: Event)
    requires Inv(H, s, k) && Allowed(H, s, k, e)
    requires e.EOpen? || e.EWrite? || AssignsOnly(e)
    ensures SameNumbers(s, k, Step(H, s, e), Recorded(H, s, k, e))
  {
    hide Respond;
    UnreleasedHaveBlocks(H, s, k);
    if e.EOpen? {
      OpenEvent(H, s, k, e);
    } else if e.EWrite? {
      WriteEvent(H, s, k, e);
    } else {
      AttributeEvent(H, s, e);
    }
  }

  lemma StepNumbers(H: Hasher, s: Sys, k: Hist, e: Event)
    requires Inv(H, s, k) && Numbered(H, s, k) && Allowed(H, s, k, e) && CollisionFree(H, Recorded(H, s, k, e).hashed)
    ensures Numbered(H, Step(H, s, e), Recorded(H, s, k, e)) && KeepsIno(s, k, Step(H, s, e), Recorded(H, s, k, e))
  {
    hide Respond;
    if e.ECreate? {
      CreateNumbers(H, s, k, e);
    } else {
      if e.ERelease? {
        ReleaseNumbers(H, s, k, e);
      } else if e.EUnlink? {
        UnlinkNumbers(H, s, k, e);
      } else if e.EMkdir? || e.ERmdir? {
        FolderNumbers(H, s, k, e);
      } else if e.ELookup? {
        LookupNumbers(H, s, k, e);
      } else if e.ERecover? {
        RecoverNumbers(H, s, k, e);
      } else {
        QuietNumbers(H, s, k, e);
      }
      SameNumbersKeep(H, s, k, Step(H, s, e), Recorded(H, s, k, e));
    }
  }

  lemma {:induction false} RunNumbers(H: Hasher, es: seq<Event>)
    requires WriteOnceRun(H, es) && CollisionFree(H, HistAfter(H, es).hashed)
    ensures Numbered(H, After(H, es), HistAfter(H, es))
  {
    if es != [] {
      var init := es[..|es| - 1];
      RunPrefix(H, es);
      HashedGrows(H, After(H, init), HistAfter(H, init), es[|es| - 1]);
      RunNumbers(H, init);
      RunKeepsInv(H, init);
      StepNumbers(H, After(H, init), HistAfter(H, init), es[|es| - 1]);
    }
  }

  // ---------- what a Lookup reports ----------

  /** In a write-once state every file is reported under the number in its node entry. */
  lemma LookupReportsNode(H: Hasher, s: Sys, k: Hist, p: Path, x: Stat)
    requires PathsOk(H, s, k) && Numbered(H, s, k) && p in k.blocks
    ensures p in s.meta.nodes && p in s.fs.dir && LookupIno(H, s, p, x) == s.meta.nodes[p].stable.ino
  {
    assert PathOk(H, k.hashed, View(s, k, p), p);
  }

  /** The run is never without p from its i-th event on. */
  ghost predicate Stays(H: Hasher, es: seq<Event>, i: nat, p: Path)
    requires i <= |es|
  {
    forall j | i <= j <= |es| :: p in HistAfter(H, es[..j]).blocks
  }

  lemma StaysPrefix(H: Hasher, es: seq<Event>, i: nat, p: Path)
    requires i < |es| && Stays(H, es, i, p)
    ensures var init := es[..|es| - 1];
      init[..i] == es[..i] && Stays(H, init, i, p) && p in HistAfter(H, init).blocks && p in HistAfter(H, es).blocks
  {
    var init := es[..|es| - 1];
    forall j | i <= j <= |init| ensures p in HistAfter(H, init[..j]).blocks {
      assert init[..j] == es[..j];
    }
    assert init[..|init|] == init && es[..|es|] == es;
  }

  lemma {:induction false} NodeInoStays(H: Hasher, es: seq<Event>, i: nat, p: Path)
    requires WriteOnceRun(H, es) && CollisionFree(H, HistAfter(H, es).hashed) && i <= |es| && Stays(H, es, i, p)
    requires p in After(H, es[..i]).meta.nodes
    ensures p in After(H, es).meta.nodes
    ensures After(H, es).meta.nodes[p].stable.ino == After(H, es[..i]).meta.nodes[p].stable.ino
  {
    hide Respond;
    if i == |es| {
      assert es[..i] == es;
    } else {
      var init := es[..|es| - 1];
      StaysPrefix(H, es, i, p);
      RunPrefix(H, es);
      HashedGrows(H, After(H, init), HistAfter(H, init), es[|es| - 1]);
      NodeInoStays(H, init, i, p);
      RunKeepsInv(H, init);
      RunNumbers(H, init);
      StepNumbers(H, After(H, init), HistAfter(H, init), es[|es| - 1]);
    }
  }

  /** From Create to Unlink, whichever calls of its Release fail: any two Lookups of a path report the same
      inode number, whatever else lstat answers. */
  lemma LookupInoIsStable(H: Hasher, es: seq<Event>, i: nat, p: Path, x: Stat, y: Stat)
    requires WriteOnceRun(H, es) && CollisionFree(H, HistAfter(H, es).hashed) && i <= |es| && Stays(H, es, i, p)
    ensures LookupIno(H, After(H, es[..i]), p, x) == LookupIno(H, After(H, es), p, y)
  {
    hide Respond, Inv, Instantiate;
    WriteOncePrefix(H, es, i);
    RunKeepsInv(H, es[..i]);
    RunNumbers(H, es[..i]);
    RunKeepsInv(H, es);
    RunNumbers(H, es);
    assert es[..|es|] == es && p in HistAfter(H, es[..|es|]).blocks && p in HistAfter(H, es[..i]).blocks;
    LookupReportsNode(H, After(H, es[..i]), HistAfter(H, es[..i]), p, x);
    LookupReportsNode(H, After(H, es), HistAfter(H, es), p, y);
    NodeInoStays(H, es, i, p);
  }

  // ---------- when a Lookup takes the process down ----------

  /** Exactly when the file has been released and its record is gone: the code then fills attributes from a
      nil pointer. */
  lemma LookupPanics(H: Hasher, es: seq<Event>, p: Path, x: Stat)
    requires WriteOnceRun(H, es) && CollisionFree(H, HistAfter(H, es).hashed)
    ensures var s, k := After(H, es), HistAfter(H, es);
      LookupPath(H, s, p, x).reply == Panic <==> IsClosed(k, p) && MetaOf(s.meta, p).None?
  {
    hide Respond;
    RunKeepsInv(H, es);
    var s, k := After(H, es), HistAfter(H, es);
    assert PathOk(H, k.hashed, View(s, k, p), p);
  }

  lemma LookupSucceeds(H: Hasher, s: Sys, p: Path, x: Stat)
    requires p in s.fs.dir && p !in s.fs.folders && p in s.meta.nodes && !s.meta.nodes[p].isDir
    requires (s.meta.nodes[p].ref == 0 && s.meta.nodes[p].hash == ZERO)
      || Live(s.meta.files, s.meta.nodes[p].hash, s.meta.nodes[p].ref)
    ensures LookupPath(H, s, p, x).reply == Err(OK)
  {
  }

  lemma FullLookup(H: Hasher, s: Sys, k: Hist, p: Path)
    requires Full(H, s, k) && p in k.blocks
    ensures p in s.fs.dir && p !in s.fs.folders && p in s.meta.nodes && !s.meta.nodes[p].isDir
    ensures (s.meta.nodes[p].ref == 0 && s.meta.nodes[p].hash == ZERO)
      || Live(s.meta.files, s.meta.nodes[p].hash, s.meta.nodes[p].ref)
  {
    hide Respond;
    assert PathOk(H, k.hashed, View(s, k, p), p);
    if IsClosed(k, p) {
      assert HasRecord(s, p);
    }
  }

  /** Which never happens as long as the calls of Release succeed. */
  lemma CleanLookupsSucceed(H: Hasher, es: seq<Event>, p: Path, x: Stat)
    requires CleanRun(H, es) && p in PlainAfter(es)
    ensures LookupPath(H, After(H, es), p, x).reply == Err(OK)
  {
    CleanRunsAreFull(H, es);
    HistoryIsPlain(H, es);
    FullLookup(H, After(H, es), HistAfter(H, es), p);
    LookupSucceeds(H, After(H, es), p, x);
  }

  // ---------- which numbers differ ----------

  lemma {:induction false} DecimalInjective(m: nat, n: nat)
    requires Decimal(m) == Decimal(n)
    ensures m == n
  {
    DecimalEnds(m);
    DecimalEnds(n);
    if m >= 10 && n >= 10 {
      assert Decimal(m)[..|Decimal(m)| - 1] == Decimal(m / 10) && Decimal(n)[..|Decimal(n)| - 1] == Decimal(n / 10);
      DecimalInjective(m / 10, n / 10);
    }
  }

  lemma DecimalEnds(n: nat)
    ensures var d := Decimal(n); |d| >= 1 && d[|d| - 1] as nat == 48 + n % 10 && (|d| == 1 <==> n < 10)
  {
  }

  lemma {:induction false} BigEndianInjective(a: Bytes, b: Bytes)
    requires |a| == |b| && BigEndian(a) == BigEndian(b)
    ensures a == b
  {
    if a != [] {
      BigEndianInjective(a[..|a| - 1], b[..|b| - 1]);
      assert a == a[..|a| - 1] + [a[|a| - 1]] && b == b[..|b| - 1] + [b[|b| - 1]];
    }
  }

  /** What is hashed for the number of a node. */
  function NumberKey(p: Path, dev: nat, ino: nat): Bytes { p + Decimal(dev) + Decimal(ino) }

  /** The number is the first eight bytes of the digest, the first of them the most significant. */
  lemma NumberIsFirstEight(H: Hasher, p: Path, dev: nat, ino: nat)
    ensures var d := H(NumberKey(p, dev, ino));
      VirtualIno(H, p, dev, ino) == d[7] as nat + 0x100 * d[6] as nat + 0x1_0000 * d[5] as nat
        + 0x100_0000 * d[4] as nat + 0x1_0000_0000 * d[3] as nat + 0x100_0000_0000 * d[2] as nat
        + 0x1_0000_0000_0000 * d[1] as nat + 0x100_0000_0000_0000 * d[0] as nat
  {
    var d := H(NumberKey(p, dev, ino));
    forall n: nat | 1 <= n <= 8 ensures BigEndian(d[..n]) == 256 * BigEndian(d[..n - 1]) + d[n - 1] as nat {
      assert d[..n][..n - 1] == d[..n - 1];
    }
    assert BigEndian(d[..0]) == 0;
    assert BigEndian(d[..4]) == d[3] as nat + 0x100 * d[2] as nat + 0x1_0000 * d[1] as nat + 0x100_0000 * d[0] as nat;
  }

  /** Two nodes of a device get one number exactly if the first eight bytes of two digests agree; and these are digests
      of different inputs if the paths are equally long, or the inode numbers are the same, or the paths are. */
  lemma DifferentNumbers(H: Hasher, p: Path, q: Path, dev: nat, i: nat, j: nat)
    requires p != q || i != j
    ensures VirtualIno(H, p, dev, i) == VirtualIno(H, q, dev, j)
      <==> H(NumberKey(p, dev, i))[..8] == H(NumberKey(q, dev, j))[..8]
    ensures |p| == |q| || i == j ==> NumberKey(p, dev, i) != NumberKey(q, dev, j)
  {
    var a, b := NumberKey(p, dev, i), NumberKey(q, dev, j);
    if VirtualIno(H, p, dev, i) == VirtualIno(H, q, dev, j) {
      BigEndianInjective(H(a)[..8], H(b)[..8]);
    }
    if a == b && (|p| == |q| || i == j) {
      KeyDecodes(p, q, dev, i, j);
    }
  }

  lemma KeyDecodes(p: Path, q: Path, dev: nat, i: nat, j: nat)
    requires NumberKey(p, dev, i) == NumberKey(q, dev, j) && (|p| == |q| || i == j)
    ensures p == q && i == j
  {
    var a, b := NumberKey(p, dev, i), NumberKey(q, dev, j);
    assert p == a[..|p|] && q == b[..|q|];
    assert Decimal(i) == a[|p + Decimal(dev)|..] && Decimal(j) == b[|q + Decimal(dev)|..];
    DecimalInjective(i, j);
  }

  /** The condition is needed, whatever the hash function: a path, and the path with a `1` after it, on device 1. */
  lemma NumbersClash(H: Hasher, p: Path)
    ensures VirtualIno(H, p, 1, 15) == VirtualIno(H, p + [49], 1, 5)
  {
    assert Decimal(15) == [49, 53] && Decimal(1) == [49] && Decimal(5) == [53];
    assert NumberKey(p, 1, 15) == NumberKey(p + [49], 1, 5);
  }
}
