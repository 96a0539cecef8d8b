/** What holds of regularFileMetadataHash over arbitrary sequences of the three ways the code changes it. */
module StoreRuns {
  import opened Basics
  import opened StoreModel

  datatype FileOp = Take(h: Hash) | Drop(h: Hash, r: nat) | Assign(h: Hash, r: nat, m: Meta)

  function Apply(files: Files, op: FileOp): Files {
    match op
    case Take(h) => Claim(files, h)
    case Drop(h, r) => Remove(files, h, r)
    case Assign(h, r, m) => Fill(files, h, r, m)
  }

  function ApplyAll(files: Files, ops: seq<FileOp>): Files {
    if ops == [] then files else Apply(ApplyAll(files, ops[..|ops| - 1]), ops[|ops| - 1])
  }

  /** No counter overflows anywhere along the run. */
  ghost predicate Roomy(files: Files, ops: seq<FileOp>) {
    forall i | 0 <= i < |ops| :: ops[i].Take? ==> Room(ApplyAll(files, ops[..i]), ops[i].h)
  }

  lemma RoomyPrefix(files: Files, ops: seq<FileOp>)
    requires Roomy(files, ops) && ops != []
    ensures Roomy(files, ops[..|ops| - 1])
    ensures ops[|ops| - 1].Take? ==> Room(ApplyAll(files, ops[..|ops| - 1]), ops[|ops| - 1].h)
  {
    var init := ops[..|ops| - 1];
    forall i | 0 <= i < |init| && init[i].Take? ensures Room(ApplyAll(files, init[..i]), init[i].h) {
      assert init[..i] == ops[..i] && init[i] == ops[i];
    }
  }

  lemma ApplyWF(files: Files, op: FileOp)
    requires FilesWF(files) && (op.Take? ==> Room(files, op.h))
    ensures FilesWF(Apply(files, op))
  {
    match op
    case Take(h) => ClaimWF(files, h);
    case Drop(h, r) => RemoveWF(files, h, r);
    case Assign(h, r, m) => FillWF(files, h, r, m);
  }

  /** Well-formedness at every point of every run: counts equal sizes and are at least one, references
      stay within 1..IndexCounter, and the empty-file class is exactly 1..IndexCounter. */
  lemma {:induction false} RunsKeepWF(files: Files, ops: seq<FileOp>)
    requires FilesWF(files) && Roomy(files, ops)
    ensures FilesWF(ApplyAll(files, ops))
  {
    if ops != [] {
      RoomyPrefix(files, ops);
      RunsKeepWF(files, ops[..|ops| - 1]);
      ApplyWF(ApplyAll(files, ops[..|ops| - 1]), ops[|ops| - 1]);
    }
  }

  // ---------- references are not reissued ----------

  /** Between two moments of one entry's life: the counter has not fallen, and whatever is live now was
      live then or has been numbered above the counter of then. */
  ghost predicate Evolved(was: Entry, now: Entry) {
    && was.counter <= now.counter
    && forall r | r in now.list :: r in was.list || r > was.counter
  }

  lemma ApplyEvolves(files: Files, op: FileOp, h: Hash)
    requires FilesWF(files) && (op.Take? ==> Room(files, op.h))
    requires h in files && h in Apply(files, op)
    ensures Evolved(files[h], Apply(files, op)[h])
  {
    if op.Take? {
      AddMetaWF(CreateEntry(files, op.h)[op.h]);
    }
  }

  lemma {:induction false} NoReissue(files: Files, ops: seq<FileOp>, h: Hash)
    requires FilesWF(files) && Roomy(files, ops)
    requires forall i | 0 <= i <= |ops| :: h in ApplyAll(files, ops[..i])
    ensures h in files && h in ApplyAll(files, ops) && Evolved(files[h], ApplyAll(files, ops)[h])
  {
    assert ops[..|ops|] == ops && ops[..0] == [];
    if ops != [] {
      var init := ops[..|ops| - 1];
      RoomyPrefix(files, ops);
      forall i | 0 <= i <= |init| ensures h in ApplyAll(files, init[..i]) {
        assert init[..i] == ops[..i];
      }
      NoReissue(files, init, h);
      RunsKeepWF(files, init);
      ApplyEvolves(ApplyAll(files, init), ops[|ops| - 1], h);
    }
  }

  // ---------- the empty-file class ----------

  lemma EmptyClassSize(list: map<nat, Meta>, n: nat)
    requires forall r :: r in list <==> 1 <= r <= n
    ensures |list| == n
  {
    if n == 0 {
      assert list.Keys == {};
    } else {
      EmptyClassSize(list - {n}, n - 1);
      RemoveRefSize(list, n);
    }
  }

  /** Over any run the empty-file class holds the references 1..IndexCounter and counts them all, nothing
      removes one of its records, and only Assign changes one. */
  lemma {:induction false} EmptyClassOnlyGrows(files: Files, ops: seq<FileOp>)
    requires FilesWF(files) && Roomy(files, ops)
    ensures var now := ApplyAll(files, ops);
      && (ZERO in now ==> now[ZERO].refCount == now[ZERO].counter
                          && forall r :: r in now[ZERO].list <==> 1 <= r <= now[ZERO].counter)
      && (ZERO in files ==> ZERO in now && files[ZERO].list.Keys <= now[ZERO].list.Keys)
      && (forall r | Live(files, ZERO, r) && (forall op | op in ops :: !op.Assign?) ::
            Lookup(now, ZERO, r) == Lookup(files, ZERO, r))
  {
    RunsKeepWF(files, ops);
    var now := ApplyAll(files, ops);
    if ZERO in now {
      EmptyClassSize(now[ZERO].list, now[ZERO].counter);
    }
    if ops != [] {
      var init := ops[..|ops| - 1];
      var mid, op := ApplyAll(files, init), ops[|ops| - 1];
      RoomyPrefix(files, ops);
      EmptyClassOnlyGrows(files, init);
      RunsKeepWF(files, init);
      if op.Take? {
        AddMetaWF(CreateEntry(mid, op.h)[op.h]);
      }
      assert forall o | o in init :: o in ops;
      assert op in ops;
    }
  }

  // ---------- Unlink undoes Release ----------

  /** An operation that concerns another content class, or the record of (h, r) itself. */
  ghost predicate Elsewhere(op: FileOp, h: Hash, r: nat) {
    op.h != h || (op.Assign? && op.r == r)
  }

  /** The entry of h while one extra reference r is held. */
  function Held(base: Entry, r: nat, m: Meta): Entry {
    Entry(base.refCount + 1, base.list[r := m], base.counter + 1)
  }

  lemma OtherHashCommutes(b: Files, op: FileOp, h: Hash, x: Entry)
    requires op.h != h
    ensures Apply(b[h := x], op) == Apply(b, op)[h := x]
    ensures h in Apply(b, op) <==> h in b
    ensures h in b ==> Apply(b, op)[h] == b[h]
  {
    match op
    case Take(k) =>
      assert CreateEntry(b[h := x], k)[k] == CreateEntry(b, k)[k];
    case Drop(k, r) =>
    case Assign(k, r, m) =>
  }

  lemma AssignHeld(b: Files, h: Hash, r: nat, base: Entry, m0: Meta, m: Meta)
    requires !Live(b, h, r)
    ensures Fill(b[h := Held(base, r, m0)], h, r, m) == Fill(b, h, r, m)[h := Held(base, r, m)]
    ensures Fill(b, h, r, m) == b
  {
    assert base.list[r := m0][r := m] == base.list[r := m];
  }

  lemma {:induction false} HeldThroughout(files: Files, h: Hash, ops: seq<FileOp>, base: Entry,
                                          r: nat)
    returns (m: Meta)
    requires FilesWF(files) && Room(files, h)
    requires base == CreateEntry(files, h)[h] && r == ClaimedRef(files, h)
    requires forall op | op in ops :: Elsewhere(op, h, r)
    ensures ApplyAll(Claim(files, h), ops) == ApplyAll(files, ops)[h := Held(base, r, m)]
    ensures h in ApplyAll(files, ops) <==> h in files
    ensures h in files ==> ApplyAll(files, ops)[h] == files[h]
  {
    AddMetaWF(base);
    if ops == [] {
      m := DEFAULT_META;
    } else {
      var init, op := ops[..|ops| - 1], ops[|ops| - 1];
      assert op in ops && forall o | o in init :: o in ops;
      m := HeldThroughout(files, h, init, base, r);
      if op.h == h {
        AssignHeld(ApplyAll(files, init), h, r, base, m, op.m);
        m := op.m;
      } else {
        OtherHashCommutes(ApplyAll(files, init), op, h, Held(base, r, m));
      }
    }
  }

  lemma DropHeld(b: Files, h: Hash, r: nat, base: Entry, m: Meta)
    requires h != ZERO && r != 0 && r !in base.list
    requires if h in b then base == b[h] && base.refCount > 0 else base.refCount == 0
    ensures Remove(b[h := Held(base, r, m)], h, r) ==
            if h in b then b[h := base.(counter := base.counter + 1)] else b
  {
    assert base.list[r := m] - {r} == base.list;
  }

  /** Adding a reference and removing it again, whatever happened to other contents in between, restores
      the map: exactly when the content was unique, and up to an IndexCounter one larger when it was not. */
  lemma ReleaseThenUnlink(files: Files, h: Hash, ops: seq<FileOp>)
    requires FilesWF(files) && Room(files, h) && h != ZERO
    requires forall op | op in ops :: Elsewhere(op, h, ClaimedRef(files, h))
    ensures var r, rest := ClaimedRef(files, h), ApplyAll(files, ops);
      Remove(ApplyAll(Claim(files, h), ops), h, r) ==
      if h in files then rest[h := files[h].(counter := files[h].counter + 1)] else rest
  {
    var base, r := CreateEntry(files, h)[h], ClaimedRef(files, h);
    AddMetaWF(base);
    var m := HeldThroughout(files, h, ops, base, r);
    DropHeld(ApplyAll(files, ops), h, r, base, m);
  }

  // ---------- InsureIntegrity ----------

  /** One round of the deleting loop. */
  function SweepOne(s: Store, p: Path, info: NodeInfo): Store {
    RemoveNode(if info.isDir then RemoveDirEntry(s, p) else s.(files := Remove(s.files, info.hash, info.ref)), p)
  }

  /** The deleting loop, for one order in which the collecting loop happened to list the paths. */
  function SweepInOrder(s: Store, infos: map<Path, NodeInfo>, order: seq<Path>): Store {
    if order == [] then s
    else
      var init, p := order[..|order| - 1], order[|order| - 1];
      if p in infos then SweepOne(SweepInOrder(s, infos, init), p, infos[p]) else SweepInOrder(s, infos, init)
  }

  predicate Kept(h: Hash, r: nat, ks: set<(Hash, nat)>) { h == ZERO || (h, r) !in ks }

  function KeptPart(list: map<nat, Meta>, h: Hash, ks: set<(Hash, nat)>): map<nat, Meta> {
    map r | r in list && Kept(h, r, ks) :: list[r]
  }

  function Shrunk(e: Entry, h: Hash, ks: set<(Hash, nat)>): Entry {
    Entry(|KeptPart(e.list, h, ks)|, KeptPart(e.list, h, ks), e.counter)
  }

  /** The map with all the references in ks gone, and with them every entry they emptied. */
  function Without(files: Files, ks: set<(Hash, nat)>): Files {
    map h | h in files && Shrunk(files[h], h, ks).refCount > 0 :: Shrunk(files[h], h, ks)
  }

  function KeysOf(nodes: map<Path, NodeInfo>, dead: set<Path>): set<(Hash, nat)> {
    set p | p in dead && p in nodes && !nodes[p].isDir :: (nodes[p].hash, nodes[p].ref)
  }

  function DirsOf(nodes: map<Path, NodeInfo>, dead: set<Path>): set<Path> {
    set p | p in dead && p in nodes && nodes[p].isDir
  }

  /** What the sweep amounts to, with no order in sight. */
  function Swept(s: Store, dead: set<Path>): Store {
    s.(files := Without(s.files, KeysOf(s.nodes, dead)),
       dirs := s.dirs - DirsOf(s.nodes, dead),
       nodes := s.nodes - dead)
  }

  /** InsureIntegrity, when stat succeeds on exactly the paths in `present`. */
  function InsureIntegrity(s: Store, present: set<Path>): Store {
    Swept(s, s.nodes.Keys - present)
  }

  lemma WithoutNothing(files: Files)
    requires FilesWF(files)
    ensures Without(files, {}) == files
  {
    forall h | h in files ensures KeptPart(files[h].list, h, {}) == files[h].list {
    }
  }

  lemma WithoutLive(files: Files, ks: set<(Hash, nat)>, h: Hash, r: nat)
    requires FilesWF(files)
    ensures Lookup(Without(files, ks), h, r) == if Kept(h, r, ks) then Lookup(files, h, r) else None
  {
    if Live(files, h, r) && Kept(h, r, ks) {
      assert r in KeptPart(files[h].list, h, ks);
    }
  }

  lemma WithoutWF(files: Files, ks: set<(Hash, nat)>)
    requires FilesWF(files)
    ensures FilesWF(Without(files, ks))
  {
    forall h | h in Without(files, ks) ensures EntryWF(Without(files, ks)[h]) {
      var part := KeptPart(files[h].list, h, ks);
      assert part.Keys <= files[h].list.Keys;
      SubsetSize(part.Keys, files[h].list.Keys);
    }
    if ZERO in files {
      assert KeptPart(files[ZERO].list, ZERO, ks) == files[ZERO].list;
    }
  }

  lemma SubsetSize<T>(a: set<T>, b: set<T>)
    requires a <= b
    ensures |a| <= |b|
  {
    if a != {} {
      var x :| x in a;
      SubsetSize(a - {x}, b - {x});
    }
  }

  lemma OthersKept(e: Entry, ks: set<(Hash, nat)>, h: Hash, r: nat, k: Hash)
    requires k != h || h == ZERO
    ensures Shrunk(e, k, ks + {(h, r)}) == Shrunk(e, k, ks)
  {
    assert KeptPart(e.list, k, ks + {(h, r)}) == KeptPart(e.list, k, ks);
  }

  lemma PartLoses(list: map<nat, Meta>, ks: set<(Hash, nat)>, h: Hash, r: nat)
    requires h != ZERO
    ensures KeptPart(list, h, ks + {(h, r)}) == KeptPart(list, h, ks) - {r}
    ensures |KeptPart(list, h, ks) - {r}| == |KeptPart(list, h, ks)| - (if r in KeptPart(list, h, ks) then 1 else 0)
  {
    var part := KeptPart(list, h, ks);
    if r in part {
      RemoveRefSize(part, r);
    } else {
      assert part - {r} == part;
    }
  }

  lemma WithoutAgrees(files: Files, ks: set<(Hash, nat)>, ks': set<(Hash, nat)>, except: set<Hash>)
    requires forall k | k in files && k !in except :: Shrunk(files[k], k, ks') == Shrunk(files[k], k, ks)
    ensures Without(files, ks') - except == Without(files, ks) - except
  {
    var a, b := Without(files, ks') - except, Without(files, ks) - except;
    forall k | k in a ensures k in b && a[k] == b[k] {
    }
    forall k | k in b ensures k in a {
    }
  }

  lemma WithoutElsewhere(files: Files, ks: set<(Hash, nat)>, h: Hash, r: nat)
    ensures Without(files, ks + {(h, r)}) - {h} == Without(files, ks) - {h}
    ensures h !in files || h == ZERO ==> Without(files, ks + {(h, r)}) == Without(files, ks)
  {
    forall k | k in files && (k != h || h == ZERO)
      ensures Shrunk(files[k], k, ks + {(h, r)}) == Shrunk(files[k], k, ks)
    {
      OthersKept(files[k], ks, h, r, k);
    }
    WithoutAgrees(files, ks, ks + {(h, r)}, {h});
    if h !in files || h == ZERO {
      WithoutAgrees(files, ks, ks + {(h, r)}, {});
      assert Without(files, ks) - {} == Without(files, ks);
      assert Without(files, ks + {(h, r)}) - {} == Without(files, ks + {(h, r)});
    }
  }

  lemma RemoveFromWithout(files: Files, ks: set<(Hash, nat)>, h: Hash, r: nat)
    requires FilesWF(files)
    ensures Remove(Without(files, ks), h, r) == Without(files, ks + {(h, r)})
  {
    WithoutElsewhere(files, ks, h, r);
    if h in files && h != ZERO {
      WithoutWF(files, ks);
      PartLoses(files[h].list, ks, h, r);
      SweptEntry(Without(files, ks), Without(files, ks + {(h, r)}), h, r);
    }
  }

  lemma SweptEntry(a: Files, b: Files, h: Hash, r: nat)
    requires FilesWF(a) && h != ZERO
    requires a - {h} == b - {h}
    requires Live(a, h, r) && |a[h].list| == 1 ==> h !in b
    requires Live(a, h, r) && |a[h].list| > 1 ==>
      h in b && b[h] == Entry(|a[h].list| - 1, a[h].list - {r}, a[h].counter)
    requires !Live(a, h, r) ==> (h in b <==> h in a) && (h in a ==> b[h] == a[h])
    ensures Remove(a, h, r) == b
  {
    var c := Remove(a, h, r);
    assert forall k :: k in c <==> k in b by {
      forall k ensures k in c <==> k in b {
        assert k in a - {h} <==> k in b - {h};
      }
    }
    forall k | k in c && k != h ensures c[k] == b[k] {
      assert (a - {h})[k] == (b - {h})[k];
    }
  }

  lemma {:induction false} SweepReaches(s: Store, order: seq<Path>)
    requires FilesWF(s.files)
    ensures SweepInOrder(s, s.nodes, order) == Swept(s, set p | p in order && p in s.nodes)
  {
    var dead := set p | p in order && p in s.nodes;
    if order == [] {
      WithoutNothing(s.files);
      assert KeysOf(s.nodes, dead) == {} && DirsOf(s.nodes, dead) == {};
      assert s.nodes - dead == s.nodes && s.dirs - {} == s.dirs;
    } else {
      var init, p := order[..|order| - 1], order[|order| - 1];
      var dead0 := set q | q in init && q in s.nodes;
      SweepReaches(s, init);
      if p in s.nodes {
        assert dead == dead0 + {p};
        SweepStep(s, dead0, p);
      } else {
        assert dead == dead0;
      }
    }
  }

  lemma SweepStep(s: Store, dead: set<Path>, p: Path)
    requires FilesWF(s.files) && p in s.nodes
    ensures SweepOne(Swept(s, dead), p, s.nodes[p]) == Swept(s, dead + {p})
  {
    var info, more := s.nodes[p], dead + {p};
    assert s.nodes - dead - {p} == s.nodes - more;
    if info.isDir {
      assert KeysOf(s.nodes, more) == KeysOf(s.nodes, dead);
      assert DirsOf(s.nodes, more) == DirsOf(s.nodes, dead) + {p};
      assert s.dirs - DirsOf(s.nodes, dead) - {p} == s.dirs - DirsOf(s.nodes, more);
    } else {
      assert KeysOf(s.nodes, more) == KeysOf(s.nodes, dead) + {(info.hash, info.ref)};
      assert DirsOf(s.nodes, more) == DirsOf(s.nodes, dead);
      RemoveFromWithout(s.files, KeysOf(s.nodes, dead), info.hash, info.ref);
    }
  }

  /** The sweep takes the entries of the paths that are not there, the records of the directories among them and the
      records under the keys of the files among them, whoever shares those; the empty-file class keeps its own. */
  lemma SweepTakes(s: Store, present: set<Path>, p: Path, h: Hash, r: nat)
    requires FilesWF(s.files)
    ensures var s' := InsureIntegrity(s, present);
      && Get(s'.nodes, p) == (if p in present then Get(s.nodes, p) else None)
      && Get(s'.dirs, p) == (if p in s.nodes && s.nodes[p].isDir && p !in present then None else Get(s.dirs, p))
      && Lookup(s'.files, h, r) ==
         (if h != ZERO && exists q :: q in s.nodes && q !in present && !s.nodes[q].isDir && s.nodes[q].hash == h
                                      && s.nodes[q].ref == r
          then None else Lookup(s.files, h, r))
      && (h in s'.files ==> h in s.files && s'.files[h].counter == s.files[h].counter)
      && s'.xattrs == s.xattrs
  {
    WithoutLive(s.files, KeysOf(s.nodes, s.nodes.Keys - present), h, r);
  }

  /** Go iterates over a map in no particular order; the sweep's result does not depend on it. */
  lemma SweepOrderIrrelevant(s: Store, present: set<Path>, order: seq<Path>)
    requires FilesWF(s.files)
    requires (set p | p in order) == s.nodes.Keys - present
    ensures SweepInOrder(s, s.nodes, order) == InsureIntegrity(s, present)
  {
    SweepReaches(s, order);
    assert (set p | p in order && p in s.nodes) == s.nodes.Keys - present;
  }

  /** A second sweep over the same tree finds nothing to do. */
  lemma SweepIdempotent(s: Store, present: set<Path>)
    requires FilesWF(s.files)
    ensures InsureIntegrity(InsureIntegrity(s, present), present) == InsureIntegrity(s, present)
  {
    hide FilesWF;
    var t := InsureIntegrity(s, present);
    WithoutWF(s.files, KeysOf(s.nodes, s.nodes.Keys - present));
    assert t.nodes.Keys - present == {};
    assert KeysOf(t.nodes, {}) == {} && DirsOf(t.nodes, {}) == {};
    WithoutNothing(t.files);
  }
}
