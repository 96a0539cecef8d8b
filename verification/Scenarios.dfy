/** Runs that exist: two copies of one content that come to share an inode, and a failed link after which two
    paths see each other's attributes. */
module Scenarios {
  import opened Basics
  import opened Fingerprints
  import opened StoreModel
  import opened Underlying
  import opened Session
  import opened SequentialRuns
  import opened DedupTree
  import opened WriteOnce
  import opened WriteOnceSteps
  import opened WriteOnceRelease
  import opened Transparency
  import opened Sharing
  import opened Counting
  import opened StableInode
  import opened Uniqueness
  import opened OwnAttributes

  lemma FreshNumber(s: set<nat>) returns (n: nat)
    ensures n !in s
    ensures forall x | x in s :: x < n
  {
    if s == {} {
      n := 0;
    } else {
      var x :| x in s;
      var m := FreshNumber(s - {x});
      n := if m <= x then x + 1 else m;
      assert forall y | y in s :: y == x || y in s - {x};
    }
  }

  lemma Extend(H: Hasher, es: seq<Event>, e: Event)
    requires WriteOnceRun(H, es) && Allowed(H, After(H, es), HistAfter(H, es), e)
    ensures WriteOnceRun(H, es + [e]) && After(H, es + [e]) == Step(H, After(H, es), e)
    ensures HistAfter(H, es + [e]) == Recorded(H, After(H, es), HistAfter(H, es), e)
  {
    var all := es + [e];
    assert all[..|all| - 1] == es;
    forall i | 0 <= i < |all| ensures Allowed(H, After(H, all[..i]), HistAfter(H, all[..i]), all[i]) {
      if i < |es| {
        assert all[..i] == es[..i];
      }
    }
  }

  // ---------- one file at a time ----------

  lemma CreateFile(H: Hasher, es: seq<Event>, p: Path) returns (e: Event, info: NodeInfo)
    requires WriteOnceRun(H, es) && CollisionFree(H, HistAfter(H, es).hashed)
    requires UserPath(p) && Unused(After(H, es).fs, p)
    ensures WriteOnceRun(H, es + [e]) && e.ECreate? && e.fd !in After(H, es).handles
    ensures Created(After(H, es), After(H, es + [e]), p, e.fd, e.ino, info)
    ensures HistAfter(H, es + [e]) == CreatedHist(HistAfter(H, es), p, e.fd)
  {
    hide WF, OpenCreate;
    var s, k := After(H, es), HistAfter(H, es);
    var fd := FreshNumber(s.fs.fds.Keys + s.handles.Keys);
    var ino := FreshNumber(s.fs.inodes.Keys);
    e := ECreate([], p, fd, ino, true, false, None, NO_STAT, true, true, EPOCH);
    Extend(H, es, e);
    RunKeepsInv(H, es);
    assert PathOk(H, k.hashed, View(s, k, p), p);
    info := CreateShape(H, s, [], p, fd, ino, false, None, NO_STAT, EPOCH);
  }

  lemma WriteBlock(H: Hasher, es: seq<Event>, p: Path, data: Bytes) returns (e: Event)
    requires WriteOnceRun(H, es) && CollisionFree(H, HistAfter(H, es).hashed)
    requires p in HistAfter(H, es).open && p in HistAfter(H, es).blocks
    ensures WriteOnceRun(H, es + [e]) && e.EWrite?
    ensures After(H, es + [e]).meta == After(H, es).meta && After(H, es + [e]).fs.folders == After(H, es).fs.folders
    ensures After(H, es + [e]).fs.dir == After(H, es).fs.dir && After(H, es + [e]).handles == After(H, es).handles
    ensures HistAfter(H, es + [e]) == WrittenHist(HistAfter(H, es), p, data)
  {
    var s, k := After(H, es), HistAfter(H, es);
    RunKeepsInv(H, es);
    WritingFacts(H, s, k, p);
    e := EWrite(k.open[p], p, data, |Flatten(k.blocks[p])|, None, Some(|data|), EPOCH);
    Extend(H, es, e);
    assert Private(s.fs.dir, p);
    WriteShape(H, s, k.open[p], p, data, None, EPOCH);
  }

  function ReleaseEnv(linkOk: bool, spareFd: nat, spareIno: nat): Env {
    Env(true, linkOk, true, true, true, true, true, true, spareFd, spareIno, NO_STAT, NO_STAT, StableAttr(0, 0, 0),
        EPOCH)
  }

  lemma ReleaseAllowed(H: Hasher, s: Sys, k: Hist, p: Path, linkOk: bool) returns (o: Env)
    requires PathsOk(H, s, k) && p in k.open && Room(s.meta.files, FinalHash(H, s, p))
    ensures k.open[p] in s.handles && s.handles[k.open[p]].writing && Allowed(H, s, k, ERelease(k.open[p], p, o))
    ensures o.linkOk == linkOk && (linkOk ==> AllWell(o)) && o.tmpUnlinkOk
  {
    WritingFacts(H, s, k, p);
    var fs := SpareTree(H, s, k.open[p], p);
    var spareFd := FreshNumber(fs.fds.Keys);
    var spareIno := FreshNumber(fs.inodes.Keys);
    o := ReleaseEnv(linkOk, spareFd, spareIno);
  }

  lemma CloseFile(H: Hasher, es: seq<Event>, p: Path, linkOk: bool)
    returns (e: Event, dir: map<Path, nat>, ending: Ending)
    requires WriteOnceRun(H, es) && CollisionFree(H, HistAfter(H, es).hashed)
    requires p in HistAfter(H, es).open && p in HistAfter(H, es).blocks
    requires CollisionFree(H, HistAfter(H, es).hashed + Inputs(H, HistAfter(H, es).blocks[p]))
    requires var h := Fingerprint(H, HistAfter(H, es).blocks[p]);
      Room(After(H, es).meta.files, h) && (!linkOk ==> !IsUnique(After(H, es).meta.files, h))
    ensures WriteOnceRun(H, es + [e]) && e.ERelease? && e.fd == HistAfter(H, es).open[p] && (linkOk ==> Clean(e))
    ensures HistAfter(H, es + [e]) == ReleasedHist(H, HistAfter(H, es), p)
    ensures var s, h := After(H, es), Fingerprint(H, HistAfter(H, es).blocks[p]);
      && Released(s, After(H, es + [e]), p, e.fd, h, dir, ending)
      && (linkOk && (IsUnique(s.meta.files, h) || HasCopy(s.meta.files, h)) ==> ending.Filled?)
      && (!linkOk ==> ending == Withdrawn)
  {
    var s, k := After(H, es), HistAfter(H, es);
    RunKeepsInv(H, es);
    FinalHashIsFingerprint(H, s, k, p);
    var h := FinalHash(H, s, p);
    var o := ReleaseAllowed(H, s, k, p, linkOk);
    var fd := k.open[p];
    e := ERelease(fd, p, o);
    Extend(H, es, e);
    if linkOk {
      var q;
      dir, ending, q := ReleaseBranch(H, s, k, fd, p, o);
    } else {
      OpenIsReady(H, s, k, p);
      dir, ending := s.fs.dir, Withdrawn;
      DuplicateGivenUp(H, s, fd, p, o, h, TakenClosed(s, fd, p, h));
    }
  }

  /** What a whole file of one block does. */
  ghost predicate FileWritten(s: Sys, s': Sys, p: Path, h: Hash, info: NodeInfo, ending: Ending) {
    && s'.fs.folders == s.fs.folders && s'.handles == s.handles && s'.meta.files == Ended(s.meta.files, h, ending)
    && s'.meta.nodes == s.meta.nodes[p := info] && !info.isDir && info.hash == h
       && info.ref == ClaimedRef(s.meta.files, h)
    && (ending.Filled? ==> ending.m.path == p)
  }

  lemma TwoPuts<K, V>(m: map<K, V>, k: K, v: V, w: V)
    ensures m[k := v][k := w] == m[k := w] && m[k := v][k] == v
  {
  }

  lemma ThreeSteps(s: Sys, s1: Sys, s2: Sys, s': Sys, p: Path, fd: nat, ino: nat, made: NodeInfo, h: Hash,
                   dir: map<Path, nat>,
                   ending: Ending)
    requires Created(s, s1, p, fd, ino, made) && s2.meta == s1.meta && s2.fs.folders == s1.fs.folders
      && s2.handles == s1.handles && fd !in s.handles
    requires Released(s2, s', p, fd, h, dir, ending)
    ensures FileWritten(s, s', p, h, made.(hash := h, ref := ClaimedRef(s.meta.files, h)), ending)
  {
    hide WF, FilesWF, Contents;
    TwoPuts(s.meta.nodes, p, made, made.(hash := h, ref := ClaimedRef(s.meta.files, h)));
    assert s.handles[fd := Handle(p, true, ZERO, 0)] - {fd} == s.handles;
  }

  function HistWritten(H: Hasher, k: Hist, p: Path, data: Bytes): Hist {
    k.(blocks := k.blocks[p := [data]], hashed := k.hashed + ({data} + {Digests(H, [data])}))
  }

  lemma TwoRecords(k: Hist, p: Path, fd: nat, data: Bytes)
    ensures p in CreatedHist(k, p, fd).blocks && CreatedHist(k, p, fd).blocks[p] == []
    ensures WrittenHist(CreatedHist(k, p, fd), p, data)
      == k.(blocks := k.blocks[p := [data]], open := k.open[p := fd], hashed := k.hashed + {data})
  {
    assert [] + [data] == [data];
    assert k.blocks[p := []][p := [data]] == k.blocks[p := [data]];
  }

  lemma ThreeRecords(H: Hasher, k: Hist, p: Path, fd: nat, data: Bytes)
    requires p !in k.open
    ensures p in CreatedHist(k, p, fd).blocks && CreatedHist(k, p, fd).blocks[p] == []
    ensures var k2 := WrittenHist(CreatedHist(k, p, fd), p, data);
      && p in k2.open && p in k2.blocks && k2.blocks[p] == [data] && k2.hashed == k.hashed + {data}
      && k2.hashed + Inputs(H, k2.blocks[p]) == HistWritten(H, k, p, data).hashed
      && ReleasedHist(H, k2, p) == HistWritten(H, k, p, data)
  {
    TwoRecords(k, p, fd, data);
    hide WrittenHist;
    assert k.open[p := fd] - {p} == k.open;
    assert Inputs(H, [data]) == {data} + {Digests(H, [data])};
    hide Inputs, Digests;
    assert k.hashed + {data} + Inputs(H, [data]) == k.hashed + ({data} + {Digests(H, [data])});
  }

  lemma FewerInputs(H: Hasher, a: set<Bytes>, b: set<Bytes>)
    requires CollisionFree(H, b) && a <= b
    ensures CollisionFree(H, a)
  {
  }

  ghost predicate AllClean(es: seq<Event>) { forall e | e in es :: Clean(e) }

  lemma AllCleanAppend(es: seq<Event>, e: Event)
    requires AllClean(es) && Clean(e)
    ensures AllClean(es + [e])
  {
  }

  lemma OpenAndWrite(H: Hasher, es: seq<Event>, p: Path, data: Bytes) returns (e1: Event, e2: Event, made: NodeInfo)
    requires WriteOnceRun(H, es) && CollisionFree(H, HistAfter(H, es).hashed)
    requires UserPath(p) && Unused(After(H, es).fs, p) && p !in HistAfter(H, es).open
    ensures WriteOnceRun(H, es + [e1] + [e2]) && e1.ECreate? && e2.EWrite? && e1.fd !in After(H, es).handles
    ensures Created(After(H, es), After(H, es + [e1]), p, e1.fd, e1.ino, made)
    ensures After(H, es + [e1] + [e2]).meta == After(H, es + [e1]).meta
      && After(H, es + [e1] + [e2]).handles == After(H, es + [e1]).handles
    ensures After(H, es + [e1] + [e2]).fs.folders == After(H, es + [e1]).fs.folders
    ensures HistAfter(H, es + [e1] + [e2]) == WrittenHist(CreatedHist(HistAfter(H, es), p, e1.fd), p, data)
  {
    e1, made := CreateFile(H, es, p);
    e2 := WriteBlock(H, es + [e1], p, data);
  }

  /** The file of p, opened and written in the run es, is closed. */
  lemma CloseWritten(H: Hasher, es: seq<Event>, k: Hist, p: Path, fd: nat, data: Bytes, linkOk: bool)
    returns (e: Event, dir: map<Path, nat>, ending: Ending)
    requires WriteOnceRun(H, es) && p !in k.open && HistAfter(H, es) == WrittenHist(CreatedHist(k, p, fd), p, data)
    requires CollisionFree(H, HistWritten(H, k, p, data).hashed)
    requires var h := Fingerprint(H, [data]);
      Room(After(H, es).meta.files, h) && (!linkOk ==> !IsUnique(After(H, es).meta.files, h))
    ensures WriteOnceRun(H, es + [e]) && e.ERelease? && e.fd == fd && (linkOk ==> Clean(e))
    ensures HistAfter(H, es + [e]) == HistWritten(H, k, p, data)
    ensures var s, h := After(H, es), Fingerprint(H, [data]);
      && Released(s, After(H, es + [e]), p, e.fd, h, dir, ending)
      && (linkOk && (IsUnique(s.meta.files, h) || HasCopy(s.meta.files, h)) ==> ending.Filled?)
      && (!linkOk ==> ending == Withdrawn)
  {
    ThreeRecords(H, k, p, fd, data);
    FewerInputs(H, k.hashed + {data}, HistWritten(H, k, p, data).hashed);
    e, dir, ending := CloseFile(H, es, p, linkOk);
  }

  lemma WriteFile(H: Hasher, es: seq<Event>, p: Path, data: Bytes, linkOk: bool)
    returns (es': seq<Event>, info: NodeInfo, ending: Ending)
    requires WriteOnceRun(H, es) && CollisionFree(H, HistWritten(H, HistAfter(H, es), p, data).hashed)
    requires UserPath(p) && p !in HistAfter(H, es).open && Unused(After(H, es).fs, p)
    requires var h := Fingerprint(H, [data]);
      Room(After(H, es).meta.files, h) && (!linkOk ==> !IsUnique(After(H, es).meta.files, h))
    ensures WriteOnceRun(H, es') && HistAfter(H, es') == HistWritten(H, HistAfter(H, es), p, data)
    ensures FileWritten(After(H, es), After(H, es'), p, Fingerprint(H, [data]), info, ending)
    ensures var files, h := After(H, es).meta.files, Fingerprint(H, [data]);
      && (linkOk && (IsUnique(files, h) || HasCopy(files, h)) ==> ending.Filled?)
      && (!linkOk ==> ending == Withdrawn)
    ensures linkOk && AllClean(es) ==> AllClean(es')
  {
    var k, all := HistAfter(H, es), HistWritten(H, HistAfter(H, es), p, data).hashed;
    FewerInputs(H, k.hashed, all);
    var e1, e2, made := OpenAndWrite(H, es, p, data);
    var dir, e3;
    e3, dir, ending := CloseWritten(H, es + [e1] + [e2], k, p, e1.fd, data, linkOk);
    es' := es + [e1] + [e2] + [e3];
    ThreeSteps(After(H, es), After(H, es + [e1]), After(H, es + [e1] + [e2]), After(H, es'), p, e1.fd, e1.ino, made,
               Fingerprint(H, [data]), dir, ending);
    info := made.(hash := Fingerprint(H, [data]), ref := ClaimedRef(After(H, es).meta.files, Fingerprint(H, [data])));
    if linkOk && AllClean(es) {
      AllCleanAppend(es, e1);
      AllCleanAppend(es + [e1], e2);
      AllCleanAppend(es + [e1] + [e2], e3);
    }
  }

  // ---------- two copies ----------

  lemma FirstCopy(h: Hash, m: Meta)
    requires h != ZERO
    ensures Ended(map[], h, Filled(m)) == map[h := Entry(1, map[1 := m], 1)] && ClaimedRef(map[], h) == 1
  {
    assert Claim(map[], h) == map[h := Entry(1, map[1 := DEFAULT_META], 1)];
    assert map[1 := DEFAULT_META][1 := m] == map[1 := m];
  }

  lemma SecondCopy(h: Hash, m: Meta, m': Meta)
    requires h != ZERO
    ensures var files := map[h := Entry(1, map[1 := m], 1)];
      && Ended(files, h, Filled(m')) == map[h := Entry(2, map[1 := m, 2 := m'], 2)]
      && Ended(files, h, Withdrawn) == map[h := Entry(1, map[1 := m], 2)]
      && ClaimedRef(files, h) == 2 && Room(files, h) && !IsUnique(files, h)
  {
    var files: Files := map[h := Entry(1, map[1 := m], 1)];
    assert Claim(files, h) == map[h := Entry(2, map[1 := m, 2 := DEFAULT_META], 2)];
    assert map[1 := m, 2 := DEFAULT_META] - {2} == map[1 := m];
    assert map[1 := m, 2 := DEFAULT_META][2 := m'] == map[1 := m, 2 := m'];
  }

  lemma OneRecordHasCopy(h: Hash, m: Meta)
    requires m.path != []
    ensures HasCopy(map[h := Entry(1, map[1 := m], 1)], h)
  {
    assert ScanDown(map[1 := m], 1) == Some(1);
  }

  lemma AbsentIsUnused(H: Hasher, es: seq<Event>, p: Path)
    requires WriteOnceRun(H, es) && CollisionFree(H, HistAfter(H, es).hashed)
    requires p !in HistAfter(H, es).blocks && p !in After(H, es).fs.folders
    ensures Unused(After(H, es).fs, p) && p !in HistAfter(H, es).open
  {
    hide Respond;
    RunKeepsInv(H, es);
    assert PathOk(H, HistAfter(H, es).hashed, View(After(H, es), HistAfter(H, es), p), p);
  }

  /** The hypotheses of the sharing theorems can be met, and then sharing happens: for any block and any two
      names there is a clean run that ends with the two files on one inode with two links. */
  lemma TwoCopiesShareAnInode(H: Hasher, p: Path, q: Path, data: Bytes) returns (es: seq<Event>)
    requires CollisionFree(H, Inputs(H, [data])) && UserPath(p) && UserPath(q) && p != q
    ensures CleanRun(H, es) && PlainAfter(es) == map[p := data, q := data]
    ensures var fs := After(H, es).fs;
      p in fs.dir && q in fs.dir && fs.dir[p] == fs.dir[q] && fs.dir[p] in fs.inodes && fs.inodes[fs.dir[p]].nlink == 2
  {
    hide Respond;
    var h := Fingerprint(H, [data]);
    FingerprintIdentifiesBlocks(H, [data], [], Inputs(H, [data]));
    assert Inputs(H, [data]) == {data} + {Digests(H, [data])};
    var es1, info, end := WriteFile(H, [], p, data, true);
    FirstCopy(h, end.m);
    OneRecordHasCopy(h, end.m);
    SecondCopy(h, end.m, end.m);
    AbsentIsUnused(H, es1, q);
    var es2, info2, end2 := WriteFile(H, es1, q, data, true);
    SecondCopy(h, end.m, end2.m);
    es := es2;
    PlainTwo(H, es, p, q, data);
    SharedAfter(H, es, p, q, data);
  }

  lemma PlainTwo(H: Hasher, es: seq<Event>, p: Path, q: Path, data: Bytes)
    requires HistAfter(H, es).blocks == map[p := [data], q := [data]]
    ensures PlainAfter(es) == map[p := data, q := data]
  {
    HistoryIsPlain(H, es);
    AppendBlock(H, [], data);
    assert [] + [data] == [data] && Flatten([data]) == data;
  }

  lemma SharedAfter(H: Hasher, es: seq<Event>, p: Path, q: Path, data: Bytes)
    requires CleanRun(H, es) && p != q && p in PlainAfter(es) && q in PlainAfter(es)
    requires HistAfter(H, es).blocks == map[p := [data], q := [data]] && HistAfter(H, es).open == map[]
      && HistAfter(H, es).left == {}
    requires var h := Fingerprint(H, [data]); h in After(H, es).meta.files && After(H, es).meta.files[h].refCount == 2
    ensures var fs := After(H, es).fs;
      p in fs.dir && q in fs.dir && fs.dir[p] == fs.dir[q] && fs.dir[p] in fs.inodes && fs.inodes[fs.dir[p]].nlink == 2
  {
    DeduplicationIsInvisible(H, es);
    assert p in Contents(After(H, es).fs) && q in Contents(After(H, es).fs);
    OneInodePerContent(H, es, p, q);
    LinkCountIsReferenceCount(H, es, p);
  }

  // ---------- a failed link ----------

  lemma OneUnlinked(h: Hash, m: Meta, counter: nat)
    requires h != ZERO
    ensures Remove(map[h := Entry(1, map[1 := m], counter)], h, 1) == map[]
  {
    assert map[1 := m] - {1} == map[];
  }

  lemma UnlinkFile(H: Hasher, es: seq<Event>, p: Path) returns (e: Event)
    requires WriteOnceRun(H, es) && CollisionFree(H, HistAfter(H, es).hashed)
    requires p in HistAfter(H, es).blocks && p !in HistAfter(H, es).open
    ensures WriteOnceRun(H, es + [e]) && e.EUnlink? && Unlinked(After(H, es), After(H, es + [e]), p)
    ensures After(H, es + [e]).fs.folders == After(H, es).fs.folders
    ensures HistAfter(H, es + [e]) == UnlinkedHist(HistAfter(H, es), p)
  {
    hide Contents;
    var s, k := After(H, es), HistAfter(H, es);
    RunKeepsInv(H, es);
    assert PathOk(H, k.hashed, View(s, k, p), p);
    e := EUnlink([], p, true, EPOCH);
    Extend(H, es, e);
    UnlinkShape(s, [], p, EPOCH);
  }

  /** What the run is like after each of its five parts: the content map, the keys of the paths, the history. */
  ghost predicate Reached(H: Hasher, es: seq<Event>, files: Files, blocks: map<Path, seq<Bytes>>, data: Bytes) {
    && WriteOnceRun(H, es) && After(H, es).meta.files == files && After(H, es).fs.folders == {}
    && HistAfter(H, es) == Hist(blocks, map[], {}, {data} + {Digests(H, [data])})
  }

  ghost predicate KeyedAs(s: Store, p: Path, h: Hash, r: nat) {
    p in s.nodes && !s.nodes[p].isDir && s.nodes[p].hash == h && s.nodes[p].ref == r
  }

  lemma NextFile(H: Hasher, es: seq<Event>, files: Files, blocks: map<Path, seq<Bytes>>, p: Path, data: Bytes,
                 linkOk: bool)
    returns (es': seq<Event>, ending: Ending)
    requires Reached(H, es, files, blocks, data) || (es == [] && files == map[] && blocks == map[])
    requires CollisionFree(H, {data} + {Digests(H, [data])}) && UserPath(p) && p !in blocks
    requires var h := Fingerprint(H, [data]);
      Room(files, h) && if linkOk then IsUnique(files, h) || HasCopy(files, h) else !IsUnique(files, h)
    ensures Reached(H, es', Ended(files, Fingerprint(H, [data]), ending), blocks[p := [data]], data)
    ensures KeyedAs(After(H, es').meta, p, Fingerprint(H, [data]), ClaimedRef(files, Fingerprint(H, [data])))
    ensures forall q | q != p :: Get(After(H, es').meta.nodes, q) == Get(After(H, es).meta.nodes, q)
    ensures if linkOk then ending.Filled? && ending.m.path == p else ending == Withdrawn
    ensures After(H, es').handles == After(H, es).handles && (linkOk && AllClean(es) ==> AllClean(es'))
  {
    var all := {data} + {Digests(H, [data])};
    assert HistWritten(H, HistAfter(H, es), p, data).hashed == all;
    FewerInputs(H, HistAfter(H, es).hashed, all);
    AbsentIsUnused(H, es, p);
    var info;
    es', info, ending := WriteFile(H, es, p, data, linkOk);
  }

  /** A first file, and a second one whose link fails. */
  lemma FirstTwo(H: Hasher, p1: Path, p2: Path, data: Bytes, h: Hash) returns (es: seq<Event>, m: Meta)
    requires CollisionFree(H, {data} + {Digests(H, [data])}) && UserPath(p1) && UserPath(p2) && p1 != p2
    requires h == Fingerprint(H, [data]) != ZERO
    ensures Reached(H, es, map[h := Entry(1, map[1 := m], 2)], map[p1 := [data], p2 := [data]], data)
    ensures KeyedAs(After(H, es).meta, p1, h, 1) && KeyedAs(After(H, es).meta, p2, h, 2)
  {
    var es1, end1 := NextFile(H, [], map[], map[], p1, data, true);
    m := end1.m;
    FirstCopy(h, m);
    SecondCopy(h, m, m);
    var end2;
    es, end2 := NextFile(H, es1, map[h := Entry(1, map[1 := m], 1)], map[p1 := [data]], p2, data, false);
    assert map[p1 := [data]][p2 := [data]] == map[p1 := [data], p2 := [data]];
    assert Get(After(H, es).meta.nodes, p1) == Get(After(H, es1).meta.nodes, p1);
  }

  /** After a failed link the file is there, but the next Lookup of it takes the process down. */
  lemma FailedLinkMakesLookupPanic(H: Hasher, p1: Path, p2: Path, data: Bytes, x: Stat) returns (es: seq<Event>)
    requires CollisionFree(H, {data} + {Digests(H, [data])}) && UserPath(p1) && UserPath(p2) && p1 != p2
    ensures WriteOnceRun(H, es) && p2 in HistAfter(H, es).blocks && LookupPath(H, After(H, es), p2, x).reply == Panic
  {
    hide Respond;
    var h := Fingerprint(H, [data]);
    assert Digests(H, [data]) in {data} + {Digests(H, [data])} && h != ZERO;
    var m;
    es, m := FirstTwo(H, p1, p2, data, h);
    LookupPanics(H, es, p2, x);
  }

  /** Two more files, with nothing of their content on record. */
  lemma LastTwo(H: Hasher, es0: seq<Event>, p2: Path, p3: Path, p4: Path, data: Bytes, h: Hash) returns (es: seq<Event>)
    requires CollisionFree(H, {data} + {Digests(H, [data])}) && UserPath(p3) && UserPath(p4)
    requires h == Fingerprint(H, [data]) != ZERO && p2 != p3 && p2 != p4 && p3 != p4
    requires Reached(H, es0, map[], map[p2 := [data]], data)
    ensures WriteOnceRun(H, es) && HistAfter(H, es).hashed == {data} + {Digests(H, [data])}
    ensures KeyedAs(After(H, es).meta, p4, h, 2) && Live(After(H, es).meta.files, h, 2)
    ensures Get(After(H, es).meta.nodes, p2) == Get(After(H, es0).meta.nodes, p2)
  {
    hide Respond;
    var es1, end1 := NextFile(H, es0, map[], map[p2 := [data]], p3, data, true);
    var m := end1.m;
    FirstCopy(h, m);
    OneRecordHasCopy(h, m);
    SecondCopy(h, m, m);
    var end2;
    es, end2 := NextFile(H, es1, map[h := Entry(1, map[1 := m], 1)], map[p2 := [data]][p3 := [data]], p4, data, true);
    SecondCopy(h, m, end2.m);
    assert Get(After(H, es1).meta.nodes, p2) == Get(After(H, es0).meta.nodes, p2);
  }

  /** Four files of one content. The link of the second fails, so its key (h, 2) is left without a record; the
      first is unlinked, which ends the entry; the third starts a new one; and the fourth is given (h, 2). */
  lemma FailedLinkReissuesKey(H: Hasher, p1: Path, p2: Path, p3: Path, p4: Path, data: Bytes) returns (es: seq<Event>)
    requires CollisionFree(H, {data} + {Digests(H, [data])}) && UserPath(p1) && UserPath(p2) && UserPath(p3)
      && UserPath(p4)
    requires p1 != p2 && p2 != p3 && p2 != p4 && p3 != p4
    ensures WriteOnceRun(H, es) && CollisionFree(H, HistAfter(H, es).hashed)
    ensures var s, h := After(H, es).meta, Fingerprint(H, [data]);
      KeyedAs(s, p2, h, 2) && KeyedAs(s, p4, h, 2) && Live(s.files, h, 2)
  {
    var h := Fingerprint(H, [data]);
    assert Digests(H, [data]) in {data} + {Digests(H, [data])} && h != ZERO;
    var es2, m := FirstTwo(H, p1, p2, data, h);
    var es3 := FirstGone(H, es2, h, m, p1, p2, data);
    es := LastTwo(H, es3, p2, p3, p4, data, h);
  }

  lemma FirstGone(H: Hasher, es: seq<Event>, h: Hash, m: Meta, p1: Path, p2: Path,
                  data: Bytes)
    returns (es': seq<Event>)
    requires Reached(H, es, map[h := Entry(1, map[1 := m], 2)], map[p1 := [data], p2 := [data]], data)
    requires CollisionFree(H, {data} + {Digests(H, [data])}) && h != ZERO && p1 != p2
    requires KeyedAs(After(H, es).meta, p1, h, 1) && KeyedAs(After(H, es).meta, p2, h, 2)
    ensures Reached(H, es', map[], map[p2 := [data]], data) && KeyedAs(After(H, es').meta, p2, h, 2)
  {
    hide Respond;
    var e := UnlinkFile(H, es, p1);
    es' := es + [e];
    OneUnlinked(h, m, 2);
    assert map[p1 := [data], p2 := [data]] - {p1} == map[p2 := [data]];
  }

  /** So in write-once runs with a failing link attribute independence fails: there is a run of four files
      after which changing the mode of one changes the mode of another. */
  lemma FailedLinkCausesCrosstalk(H: Hasher, p1: Path, p2: Path, p3: Path, p4: Path, data: Bytes)
    returns (es: seq<Event>, e: Event)
    requires CollisionFree(H, {data} + {Digests(H, [data])}) && UserPath(p1) && UserPath(p2) && UserPath(p3)
      && UserPath(p4)
    requires p1 != p2 && p2 != p3 && p2 != p4 && p3 != p4
    ensures WriteOnceRun(H, es) && CollisionFree(H, HistAfter(H, es).hashed) && OnAttributes(e) && e.p == p4
    ensures !SameAttributes(After(H, es), Step(H, After(H, es), e), p2)
  {
    es := FailedLinkReissuesKey(H, p1, p2, p3, p4, data);
    assert !Apart(After(H, es).meta, p4, p2);
    e := CrosstalkShows(H, After(H, es), p4, p2);
  }

  // ---------- the process stops with a file open ----------

  /** A file is created and written, and the process stops before it is closed: after the restart the file shows
      what had been written, is open no more, has no record, and can be looked up. */
  lemma StoppedWhileWriting(H: Hasher, p: Path, data: Bytes, x: Stat) returns (es: seq<Event>)
    requires CollisionFree(H, {data}) && UserPath(p)
    ensures CleanRun(H, es) && PlainAfter(es) == map[p := data] == Contents(After(H, es).fs)
    ensures var s := After(H, es);
      s.handles == map[] && p in HistAfter(H, es).left && MetaOf(s.meta, p).None?
      && LookupPath(H, s, p, x).reply == Err(OK)
  {
    hide Respond, WF, FilesWF, Contents;
    es := StopWhileWriting(H, p, data);
    PlainOne(H, es, p, data);
    DeduplicationIsInvisible(H, es);
    CleanLookupsSucceed(H, es, p, x);
    LeftBehind(H, es, p);
  }

  lemma StopWhileWriting(H: Hasher, p: Path, data: Bytes) returns (es: seq<Event>)
    requires CollisionFree(H, {data}) && UserPath(p)
    ensures CleanRun(H, es) && After(H, es).handles == map[]
    ensures HistAfter(H, es).blocks == map[p := [data]] && p in HistAfter(H, es).left
  {
    hide Respond, WF, FilesWF, Contents;
    var e1, e2, made := OpenAndWrite(H, [], p, data);
    var es0, e := [] + [e1] + [e2], ERecover({});
    Extend(H, es0, e);
    es := es0 + [e];
    StoppedHist(p, e1.fd, data);
    assert Clean(e1) && Clean(e2) && Clean(e) && AllClean(es);
    Recovering(H, After(H, es0), {});
  }

  lemma StoppedHist(p: Path, fd: nat, data: Bytes)
    ensures var k := RecoveredHist(WrittenHist(CreatedHist(NO_HIST, p, fd), p, data), {});
      k.blocks == map[p := [data]] && p in k.left && k.hashed == {data}
  {
    assert [] + [data] == [data] && map[p := [data]] - {} == map[p := [data]];
  }

  lemma PlainOne(H: Hasher, es: seq<Event>, p: Path, data: Bytes)
    requires HistAfter(H, es).blocks == map[p := [data]]
    ensures PlainAfter(es) == map[p := data]
  {
    HistoryIsPlain(H, es);
    AppendBlock(H, [], data);
    assert [] + [data] == [data] && Flatten([data]) == data;
  }

  lemma Recovering(H: Hasher, s: Sys, gone: set<Path>)
    ensures Step(H, s, ERecover(gone)).handles == map[]
  {
  }

  lemma LeftBehind(H: Hasher, es: seq<Event>, p: Path)
    requires CleanRun(H, es) && p in HistAfter(H, es).left
    ensures MetaOf(After(H, es).meta, p).None?
  {
    hide Respond;
    RunKeepsInv(H, es);
    assert PathOk(H, HistAfter(H, es).hashed, View(After(H, es), HistAfter(H, es), p), p);
  }

  // ---------- a handle that outlives its file ----------

  /** p is opened for reading. */
  lemma OpenReader(H: Hasher, es: seq<Event>, files: Files, blocks: map<Path, seq<Bytes>>, p: Path, data: Bytes,
                   h: Hash,
                   r: nat)
    returns (e: Event)
    requires Reached(H, es, files, blocks, data) && CollisionFree(H, {data} + {Digests(H, [data])})
    requires p in blocks && KeyedAs(After(H, es).meta, p, h, r)
    ensures e.EOpen? && Reached(H, es + [e], files, blocks, data) && After(H, es + [e]).meta == After(H, es).meta
    ensures Get(After(H, es + [e]).handles, e.fd) == Some(Handle(p, false, h, r))
  {
    hide WF, FilesWF;
    var s, k := After(H, es), HistAfter(H, es);
    var fd := FreshNumber(s.fs.fds.Keys + s.handles.Keys);
    e := EOpen(p, fd, false, false, true);
    RunKeepsInv(H, es);
    assert PathOk(H, k.hashed, View(s, k, p), p);
    Extend(H, es, e);
  }

  /** The only file of its content is unlinked; the handles stay. */
  lemma OnlyFileGone(H: Hasher, es: seq<Event>, h: Hash, m: Meta, p: Path, data: Bytes) returns (e: Event)
    requires Reached(H, es, map[h := Entry(1, map[1 := m], 1)], map[p := [data]], data) && h != ZERO
    requires CollisionFree(H, {data} + {Digests(H, [data])}) && KeyedAs(After(H, es).meta, p, h, 1)
    ensures e.EUnlink? && Reached(H, es + [e], map[], map[], data) && After(H, es + [e]).handles == After(H, es).handles
  {
    hide Respond;
    e := UnlinkFile(H, es, p);
    OneUnlinked(h, m, 1);
    assert map[p := [data]] - {p} == map[] && HistAfter(H, es).left - {p} == {};
  }

  /** Write a file, open it for reading, unlink it, and write another file with the same content: it is given the
      key that the handle still holds, so that reading the file that is gone renews the other one's access time. */
  lemma StaleHandleRead(H: Hasher, a: Path, b: Path, data: Bytes, now: Timespec) returns (es: seq<Event>, fd: nat)
    requires CollisionFree(H, {data} + {Digests(H, [data])}) && UserPath(a) && UserPath(b) && a != b
    ensures CleanRun(H, es + [ERead(fd, now)]) && a !in After(H, es).fs.dir && IsClosed(HistAfter(H, es), b)
    ensures var s, was := After(H, es), MetaOf(After(H, es).meta, b);
      && fd in s.handles && s.handles[fd].path == a && was.Some?
      && MetaOf(Step(H, s, ERead(fd, now)).meta, b) == Some(was.value.(atim := now))
  {
    hide Respond, Reached;
    var h := Fingerprint(H, [data]);
    assert Digests(H, [data]) in {data} + {Digests(H, [data])} && h != ZERO;
    var es1, end1 := NextFile(H, [], map[], map[], a, data, true);
    FirstCopy(h, end1.m);
    var e2 := OpenReader(H, es1, map[h := Entry(1, map[1 := end1.m], 1)], map[a := [data]], a, data, h, 1);
    var es2 := es1 + [e2];
    AllCleanAppend(es1, e2);
    var e3 := OnlyFileGone(H, es2, h, end1.m, a, data);
    AllCleanAppend(es2, e3);
    var end4;
    es, end4 := NextFile(H, es2 + [e3], map[], map[], b, data, true);
    fd := e2.fd;
    FirstCopy(h, end4.m);
    StaleKey(H, es, fd, a, b, h, end4.m, data, now);
  }

  lemma StaleKey(H: Hasher, es: seq<Event>, fd: nat, a: Path, b: Path, h: Hash, m: Meta, data: Bytes, now: Timespec)
    requires Reached(H, es, map[h := Entry(1, map[1 := m], 1)], map[b := [data]], data) && AllClean(es) && a != b
    requires CollisionFree(H, {data} + {Digests(H, [data])}) && KeyedAs(After(H, es).meta, b, h, 1)
    requires Get(After(H, es).handles, fd) == Some(Handle(a, false, h, 1))
    ensures CleanRun(H, es + [ERead(fd, now)]) && a !in After(H, es).fs.dir && IsClosed(HistAfter(H, es), b)
    ensures var s, was := After(H, es), MetaOf(After(H, es).meta, b);
      && was.Some? && MetaOf(Step(H, s, ERead(fd, now)).meta, b) == Some(was.value.(atim := now))
  {
    hide Respond;
    var s, k, e := After(H, es), HistAfter(H, es), ERead(fd, now);
    Extend(H, es, e);
    AllCleanAppend(es, e);
    RunKeepsInv(H, es);
    assert PathOk(H, k.hashed, View(s, k, a), a);
    assert ReadsRecord(s, e, b);
    ReadLeavesRecord(H, s, e, b);
  }
}
