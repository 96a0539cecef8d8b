/** Who owns a new file: Release takes the owner from the pending buffer, where Create has put its caller, unless
    something was left there before. */
module Ownership {
  import opened Basics
  import opened Fingerprints
  import opened Underlying
  import opened Session
  import opened WriteOnce
  import opened Transparency

  /** The owner remembered with the pending buffer of p. */
  function Pending(s: Sys, p: Path): Option<Owner> {
    if p in s.buffers then Some(BufferOwner(s, p)) else None
  }

  const NOBODY := Owner(65534, 65534)

  /** What an event has to say about the owner of p. */
  function Notes(s: Sys, e: Event, p: Path): Option<Owner> {
    match e
    case ECreate(_, q, _, _, _, _, caller, _, _, _, _) => if q == p then caller else None
    case EWrite(fd, q, _, _, caller, _, _) =>
      if q == p && fd in s.handles then Some(if caller.Some? then caller.value else NOBODY) else None
    case _ => None
  }

  /** The events that drop the buffer: closing p after writing, and a restart. */
  predicate Drops(s: Sys, e: Event, p: Path) {
    (e.ERelease? && e.p == p && e.fd in s.handles && s.handles[e.fd].writing) || e.ERecover?
  }

  /** Whoever is noted first stays noted. */
  lemma StepNotes(H: Hasher, s: Sys, e: Event, p: Path)
    requires !Drops(s, e, p)
    ensures Pending(Step(H, s, e), p) == if Pending(s, p).Some? then Pending(s, p) else Notes(s, e, p)
  {
    if e.ECreate? {
      CreateNotes(H, s, e);
    } else if e.ERelease? {
      ReleaseBuffers(H, s, e.fd, e.p, e.o);
    } else {
      OtherBuffers(H, s, e);
    }
  }

  lemma CreateNotes(H: Hasher, s: Sys, e: Event)
    requires e.ECreate?
    ensures Step(H, s, e).buffers == NoteCreator(s, e.p, e.caller).buffers
  {
    var s1 := NoteCreator(s, e.p, e.caller);
    var got := CreateOrOpen(s.fs, e.p, e.fd, e.ino, e.trunc);
    if e.openOk && got.Some? && e.fstatOk {
      CreateNodeBuffers(H, s1.(fs := got.value), e);
    }
  }

  lemma CreateNodeBuffers(H: Hasher, s: Sys, e: Event)
    requires e.ECreate? && e.fd in s.fs.fds
    ensures CreateNode(H, s, e.parent, e.p, e.fd, e.writing, e.x, e.now).sys.buffers == s.buffers
  {
  }

  lemma ReleaseBuffers(H: Hasher, s: Sys, fd: nat, p: Path, o: Env)
    ensures Release(H, s, fd, p, o).sys.buffers ==
            if fd in s.handles && s.handles[fd].writing then s.buffers - {p} else s.buffers
  {
    if fd in s.handles && s.handles[fd].writing {
      TakenBuffers(s, fd, p, FinalHash(H, s, p));
    }
  }

  lemma TakenBuffers(s: Sys, fd: nat, p: Path, h: Hash)
    ensures Taken(s, fd, p, h).buffers == s.buffers - {p}
  {
  }

  lemma OtherBuffers(H: Hasher, s: Sys, e: Event)
    requires !e.ECreate? && !e.ERelease? && !e.ERecover?
    ensures Step(H, s, e).buffers ==
            if e.EWrite? && e.fd in s.handles then Buffered(H, s, e.p, e.data, e.caller) else s.buffers
  {
    hide Instantiate;
  }

  /** In any run at all: the owner that Release will find for p is the caller of a Create of p if and only if
      nothing was pending for p at that Create, or the same owner was. */
  lemma {:induction false} OwnerIsTheCreator(H: Hasher, es: seq<Event>, i: nat, p: Path)
    requires i < |es| && es[i].ECreate? && es[i].p == p && es[i].caller.Some?
    requires forall j | i < j < |es| :: !Drops(After(H, es[..j]), es[j], p)
    ensures var before := Pending(After(H, es[..i]), p);
      && Pending(After(H, es), p) == (if before.Some? then before else es[i].caller)
      && (BufferOwner(After(H, es), p) == es[i].caller.value <==> before.None? || before == es[i].caller)
  {
    hide Respond;
    var init, n := es[..|es| - 1], |es| - 1;
    assert init[..i] == es[..i];
    if i == n {
      StepNotes(H, After(H, init), es[n], p);
    } else {
      forall j | i < j < |init| ensures !Drops(After(H, init[..j]), init[j], p) {
        assert init[..j] == es[..j];
      }
      OwnerIsTheCreator(H, init, i, p);
      assert !Drops(After(H, es[..n]), es[n], p);
      StepNotes(H, After(H, init), es[n], p);
    }
  }

  // ---------- write-once runs ----------

  /** Buffers are pending only for files that are being written. */
  ghost predicate OnlyOpenPend(s: Sys, k: Hist) {
    forall p | p in s.buffers :: p in k.open
  }

  lemma StepKeepsPending(H: Hasher, s: Sys, k: Hist, e: Event)
    requires Inv(H, s, k) && OnlyOpenPend(s, k) && Allowed(H, s, k, e)
    ensures OnlyOpenPend(Step(H, s, e), Recorded(H, s, k, e))
  {
    hide Release, Inv;
    if e.ECreate? {
      CreateNotes(H, s, e);
    } else if e.ERelease? {
      ReleaseKeepsPending(H, s, k, e);
    } else if !e.ERecover? {
      OtherBuffers(H, s, e);
    }
  }

  lemma ReleaseKeepsPending(H: Hasher, s: Sys, k: Hist, e: Event)
    requires Inv(H, s, k) && OnlyOpenPend(s, k) && Allowed(H, s, k, e) && e.ERelease?
    ensures OnlyOpenPend(Step(H, s, e), Recorded(H, s, k, e))
  {
    ReleaseBuffers(H, s, e.fd, e.p, e.o);
    if s.handles[e.fd].writing {
      assert Get(k.open, e.p) == Some(e.fd);
    }
    if e.p in k.open {
      WritingFacts(H, s, k, e.p);
      assert PathOk(H, k.hashed, View(s, k, e.p), e.p);
    }
  }

  lemma {:induction false} RunKeepsPending(H: Hasher, es: seq<Event>)
    requires WriteOnceRun(H, es) && CollisionFree(H, HistAfter(H, es).hashed)
    ensures OnlyOpenPend(After(H, es), HistAfter(H, es))
  {
    hide Respond;
    if es != [] {
      var init := es[..|es| - 1];
      RunPrefix(H, es);
      HashedGrows(H, After(H, init), HistAfter(H, init), es[|es| - 1]);
      RunKeepsPending(H, init);
      RunKeepsInv(H, init);
      StepKeepsPending(H, After(H, init), HistAfter(H, init), es[|es| - 1]);
    }
  }

  /** A file that is open after a step which did not create it was open before, and its buffer is not dropped. */
  lemma WasOpen(H: Hasher, s: Sys, k: Hist, e: Event, p: Path)
    requires Inv(H, s, k) && Allowed(H, s, k, e) && p in Recorded(H, s, k, e).open && !(e.ECreate? && e.p == p)
    ensures p in k.open && !Drops(s, e, p)
  {
    hide WF;
    WritingFacts(H, s, k, p);
    assert PathOk(H, k.hashed, View(s, k, p), p);
  }

  lemma CreatedWithoutBuffer(H: Hasher, s: Sys, k: Hist, e: Event)
    requires Inv(H, s, k) && OnlyOpenPend(s, k) && Allowed(H, s, k, e) && e.ECreate?
    ensures Pending(s, e.p).None?
  {
    assert PathOk(H, k.hashed, View(s, k, e.p), e.p);
  }

  /** Whoever the events since the i-th one name first. */
  ghost function FirstNoted(H: Hasher, es: seq<Event>, i: nat, p: Path): Option<Owner> {
    if |es| <= i then None
    else
      var init := es[..|es| - 1];
      if FirstNoted(H, init, i, p).Some? then FirstNoted(H, init, i, p) else Notes(After(H, init), es[|es| - 1], p)
  }

  /** In a write-once run the owner of a file being written is the one named first since its Create. */
  lemma {:induction false} PendingIsFirstNoted(H: Hasher, es: seq<Event>, i: nat, p: Path)
    requires WriteOnceRun(H, es) && CollisionFree(H, HistAfter(H, es).hashed) && p in HistAfter(H, es).open
    requires i < |es| && es[i].ECreate? && es[i].p == p
    requires forall j | i < j < |es| :: !(es[j].ECreate? && es[j].p == p)
    ensures Pending(After(H, es), p) == FirstNoted(H, es, i, p)
    ensures es[i].caller.Some? ==> FirstNoted(H, es, i, p) == es[i].caller
  {
    hide Respond, Allowed, Recorded, Inv;
    var init, e := es[..|es| - 1], es[|es| - 1];
    RunPrefix(H, es);
    HashedGrows(H, After(H, init), HistAfter(H, init), e);
    RunKeepsInv(H, init);
    if i == |init| {
      RunKeepsPending(H, init);
      CreatedWithoutBuffer(H, After(H, init), HistAfter(H, init), e);
      assert FirstNoted(H, init, i, p).None?;
    } else {
      WasOpen(H, After(H, init), HistAfter(H, init), e, p);
      PendingIsFirstNoted(H, init, i, p);
    }
    StepNotes(H, After(H, init), e, p);
  }
}
