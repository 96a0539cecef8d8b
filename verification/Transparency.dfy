/** Deduplication is invisible: every write-once run, whichever of Release's calls fail, shows its users the
    plain filesystem in which a path is just the bytes written to it. */
module Transparency {
  import opened Basics
  import opened Fingerprints
  import opened StoreModel
  import opened Underlying
  import opened Session
  import opened DedupTree
  import opened WriteOnce
  import opened WriteOnceSteps
  import opened WriteOnceRelease

  // ---------- the specification ----------

  type Plain = map<Path, Bytes>

  /** What an event does to a plain filesystem: Create makes an empty file, Write appends, Unlink removes
      one path, a restart loses the paths that were deleted meanwhile, and nothing else is visible. */
  function PlainStep(f: Plain, e: Event): Plain {
    match e
    case ECreate(_, p, _, _, _, _, _, _, _, _, _) => f[p := []]
    case EWrite(_, p, data, _, _, _, _) => if p in f then f[p := f[p] + data] else f
    case EUnlink(_, p, ok, _) => if ok then f - {p} else f
    case ERecover(gone) => f - gone
    case _ => f
  }

  function PlainAfter(es: seq<Event>): Plain {
    if es == [] then map[] else PlainStep(PlainAfter(es[..|es| - 1]), es[|es| - 1])
  }

  ghost function HistAfter(H: Hasher, es: seq<Event>): Hist {
    if es == [] then NO_HIST
    else
      var init := es[..|es| - 1];
      Recorded(H, After(H, init), HistAfter(H, init), es[|es| - 1])
  }

  ghost predicate WriteOnceRun(H: Hasher, es: seq<Event>) {
    forall i | 0 <= i < |es| :: Allowed(H, After(H, es[..i]), HistAfter(H, es[..i]), es[i])
  }

  // ---------- each step keeps the invariant ----------

  lemma HashedGrows(H: Hasher, s: Sys, k: Hist, e: Event)
    ensures k.hashed <= Recorded(H, s, k, e).hashed
  {
  }

  lemma CreateStep(H: Hasher, s: Sys, k: Hist, e: Event)
    requires Inv(H, s, k) && Allowed(H, s, k, e) && e.ECreate?
    ensures Inv(H, Step(H, s, e), Recorded(H, s, k, e))
  {
    hide Respond;
    var info := CreateEvent(H, s, k, e);
    CreatedKeepsInv(H, s, k, Step(H, s, e), e.p, e.fd, e.ino, info);
  }

  lemma WriteStep(H: Hasher, s: Sys, k: Hist, e: Event)
    requires Inv(H, s, k) && Allowed(H, s, k, e) && e.EWrite?
    ensures Inv(H, Step(H, s, e), Recorded(H, s, k, e))
  {
    hide Respond;
    WriteEvent(H, s, k, e);
    WrittenKeepsInv(H, s, k, Step(H, s, e), e.p, e.data);
  }

  lemma ReleaseStep(H: Hasher, s: Sys, k: Hist, e: Event)
    requires Inv(H, s, k) && Allowed(H, s, k, e) && e.ERelease?
    requires CollisionFree(H, Recorded(H, s, k, e).hashed)
    ensures Inv(H, Step(H, s, e), Recorded(H, s, k, e))
  {
    if s.handles[e.fd].writing {
      assert Get(k.open, e.p) == Some(e.fd);
      ReleaseKeepsInv(H, s, k, e.fd, e.p, e.o);
    } else {
      ReadCloseEvent(H, s, k, e);
      ReadersKeepInv(H, s, k, Step(H, s, e));
    }
  }

  lemma UnlinkStep(H: Hasher, s: Sys, k: Hist, e: Event)
    requires Inv(H, s, k) && Allowed(H, s, k, e) && e.EUnlink?
    ensures Inv(H, Step(H, s, e), Recorded(H, s, k, e))
  {
    hide Respond;
    UnlinkEvent(H, s, k, e);
    if e.ok && e.p in s.fs.dir {
      UnlinkedKeepsInv(H, s, k, Step(H, s, e), e.p);
    }
  }

  lemma MkdirStep(H: Hasher, s: Sys, k: Hist, e: Event)
    requires Inv(H, s, k) && Allowed(H, s, k, e) && e.EMkdir?
    ensures Inv(H, Step(H, s, e), Recorded(H, s, k, e))
  {
    hide Respond;
    var info := MkdirEvent(H, s, k, e);
    if e.ok && Unused(s.fs, e.p) {
      FolderMadeKeepsInv(H, s, k, Step(H, s, e), e.p, info);
    }
  }

  lemma OtherStep(H: Hasher, s: Sys, k: Hist, e: Event)
    requires Inv(H, s, k) && Allowed(H, s, k, e)
    requires e.EOpen? || e.ERmdir? || e.ELookup?
    ensures Inv(H, Step(H, s, e), k)
  {
    hide Respond;
    if e.EOpen? {
      OpenEvent(H, s, k, e);
      ReadersKeepInv(H, s, k, Step(H, s, e));
    } else if e.ERmdir? {
      RmdirEvent(H, s, e);
      if e.ok && e.p in s.fs.folders {
        FolderGoneKeepsInv(H, s, k, Step(H, s, e), e.p);
      }
    } else {
      var info := LookupEvent(H, s, k, e);
      LookedUpKeepsInv(H, s, k, Step(H, s, e), e.p, info);
    }
  }

  lemma AttributeStep(H: Hasher, s: Sys, k: Hist, e: Event)
    requires Inv(H, s, k) && AssignsOnly(e)
    ensures Inv(H, Step(H, s, e), k)
  {
    hide Respond;
    AttributeEvent(H, s, e);
    AttributesKeepInv(H, s, k, Step(H, s, e));
  }

  lemma RecoverStep(H: Hasher, s: Sys, k: Hist, e: Event)
    requires Inv(H, s, k) && Allowed(H, s, k, e) && e.ERecover?
    ensures Inv(H, Step(H, s, e), Recorded(H, s, k, e))
  {
    RecoverShape(H, s, k, e.gone);
    RecoveredKeepsInv(H, s, k, Step(H, s, e), e.gone);
  }

  lemma StepKeepsInv(H: Hasher, s: Sys, k: Hist, e: Event)
    requires Inv(H, s, k) && Allowed(H, s, k, e) && CollisionFree(H, Recorded(H, s, k, e).hashed)
    ensures Inv(H, Step(H, s, e), Recorded(H, s, k, e))
  {
    if e.ECreate? {
      CreateStep(H, s, k, e);
    } else if e.EWrite? {
      WriteStep(H, s, k, e);
    } else if e.ERelease? {
      ReleaseStep(H, s, k, e);
    } else if e.EUnlink? {
      UnlinkStep(H, s, k, e);
    } else if e.EMkdir? {
      MkdirStep(H, s, k, e);
    } else if e.ERecover? {
      RecoverStep(H, s, k, e);
    } else if AssignsOnly(e) {
      AttributeStep(H, s, k, e);
    } else {
      OtherStep(H, s, k, e);
    }
  }

  // ---------- runs ----------

  lemma RunPrefix(H: Hasher, es: seq<Event>)
    requires WriteOnceRun(H, es) && es != []
    ensures WriteOnceRun(H, es[..|es| - 1])
    ensures Allowed(H, After(H, es[..|es| - 1]), HistAfter(H, es[..|es| - 1]), es[|es| - 1])
  {
    var init := es[..|es| - 1];
    forall i | 0 <= i < |init| ensures Allowed(H, After(H, init[..i]), HistAfter(H, init[..i]), init[i]) {
      assert init[..i] == es[..i];
    }
  }

  lemma {:induction false} WriteOncePrefix(H: Hasher, es: seq<Event>, i: nat)
    requires WriteOnceRun(H, es) && i <= |es|
    ensures WriteOnceRun(H, es[..i]) && HistAfter(H, es[..i]).hashed <= HistAfter(H, es).hashed
  {
    if i == |es| {
      assert es[..i] == es;
    } else {
      var init := es[..|es| - 1];
      assert init[..i] == es[..i];
      RunPrefix(H, es);
      WriteOncePrefix(H, init, i);
      HashedGrows(H, After(H, init), HistAfter(H, init), es[|es| - 1]);
    }
  }

  lemma {:induction false} RunKeepsInv(H: Hasher, es: seq<Event>)
    requires WriteOnceRun(H, es) && CollisionFree(H, HistAfter(H, es).hashed)
    ensures Inv(H, After(H, es), HistAfter(H, es))
  {
    if es == [] {
      InvInit(H);
    } else {
      var init := es[..|es| - 1];
      RunPrefix(H, es);
      HashedGrows(H, After(H, init), HistAfter(H, init), es[|es| - 1]);
      RunKeepsInv(H, init);
      StepKeepsInv(H, After(H, init), HistAfter(H, init), es[|es| - 1]);
    }
  }

  function FlattenAll(blocks: map<Path, seq<Bytes>>): Plain {
    map p | p in blocks :: Flatten(blocks[p])
  }

  lemma ContentsAreBlocks(H: Hasher, s: Sys, k: Hist)
    requires PathsOk(H, s, k)
    ensures Contents(s.fs) == FlattenAll(k.blocks)
  {
    forall p ensures Get(Contents(s.fs), p) == Get(FlattenAll(k.blocks), p) {
      assert PathOk(H, k.hashed, View(s, k, p), p);
    }
    GetDetermines(Contents(s.fs), FlattenAll(k.blocks));
  }

  lemma GetDetermines<K(!new), V>(a: map<K, V>, b: map<K, V>)
    requires forall k :: Get(a, k) == Get(b, k)
    ensures a == b
  {
    forall k ensures k in a <==> k in b {
      assert Get(a, k) == Get(b, k);
    }
    forall k | k in a ensures a[k] == b[k] {
      assert Get(a, k) == Get(b, k);
    }
  }

  lemma RecordedIsPlain(H: Hasher, s: Sys, k: Hist, e: Event)
    ensures FlattenAll(Recorded(H, s, k, e).blocks) == PlainStep(FlattenAll(k.blocks), e)
  {
    if e.EWrite? && e.p in k.blocks {
      AppendBlock(H, k.blocks[e.p], e.data);
    }
  }

  lemma {:induction false} HistoryIsPlain(H: Hasher, es: seq<Event>)
    ensures FlattenAll(HistAfter(H, es).blocks) == PlainAfter(es)
  {
    if es != [] {
      var init := es[..|es| - 1];
      HistoryIsPlain(H, init);
      RecordedIsPlain(H, After(H, init), HistAfter(H, init), es[|es| - 1]);
    }
  }

  /** The whole run, from the events alone: what every reader sees under every name is the plain
      filesystem's answer, although names may share inodes underneath. */
  lemma DeduplicationIsInvisible(H: Hasher, es: seq<Event>)
    requires WriteOnceRun(H, es) && CollisionFree(H, HistAfter(H, es).hashed)
    ensures Contents(After(H, es).fs) == PlainAfter(es)
  {
    RunKeepsInv(H, es);
    ContentsAreBlocks(H, After(H, es), HistAfter(H, es));
    HistoryIsPlain(H, es);
  }

  /** The supporting fact: a live record of non-empty content that names a path names an existing closed
      file, and that file's blocks have the record's hash as their fingerprint. */
  lemma RecordsNameTheirFiles(H: Hasher, es: seq<Event>, h: Hash, r: nat)
    requires WriteOnceRun(H, es) && CollisionFree(H, HistAfter(H, es).hashed)
    requires Live(After(H, es).meta.files, h, r) && h != ZERO && After(H, es).meta.files[h].list[r].path != []
    ensures var s, k, q := After(H, es), HistAfter(H, es), After(H, es).meta.files[h].list[r].path;
      && q in s.fs.dir && IsClosed(k, q) && q in s.meta.nodes
      && s.meta.nodes[q].hash == h && s.meta.nodes[q].ref == r
      && Fingerprint(H, k.blocks[q]) == h && Contents(s.fs)[q] == Flatten(k.blocks[q])
  {
    hide Respond;
    var s, k := After(H, es), HistAfter(H, es);
    RunKeepsInv(H, es);
    assert RecordOk(s, k, h, r);
    assert PathOk(H, k.hashed, View(s, k, s.meta.files[h].list[r].path), s.meta.files[h].list[r].path);
  }
}
