/** The loop of RetrieveRecent round by round, with the wrap-around of its unsigned counter. Its guard
    `indx >= 0` holds of every unsigned number, so only a hit ends it. */
module RecentScan {
  import opened Basics
  import opened StoreModel

  datatype Scan = Running(indx: nat) | Found(r: nat)

  /** The loop after n rounds, starting at indx. */
  function Rounds(list: map<nat, Meta>, indx: nat, n: nat): Scan
    decreases n
  {
    if n == 0 then Running(indx)
    else if indx in list then Found(indx)
    else Rounds(list, Dec(indx, U64), n - 1)
  }

  /** References are uint64 values. */
  ghost predicate InRange(list: map<nat, Meta>) {
    forall r | r in list :: r < U64
  }

  lemma {:induction false} HitBelow(list: map<nat, Meta>, indx: nat, r: nat) returns (n: nat)
    requires r in list && r <= indx
    ensures Rounds(list, indx, n).Found?
    decreases indx
  {
    if indx in list {
      n := 1;
    } else {
      n := HitBelow(list, indx - 1, r);
      n := n + 1;
    }
  }

  lemma {:induction false} HitAbove(list: map<nat, Meta>, indx: nat, r: nat) returns (n: nat)
    requires r in list && indx < r < U64
    ensures Rounds(list, indx, n).Found?
    decreases indx
  {
    if indx in list {
      n := 1;
    } else if indx == 0 {
      n := HitBelow(list, U64 - 1, r);
      n := n + 1;
    } else {
      n := HitAbove(list, indx - 1, r);
      n := n + 1;
    }
  }

  lemma {:induction false} NothingToHit(list: map<nat, Meta>, indx: nat, n: nat)
    requires list == map[]
    ensures Rounds(list, indx, n).Running?
    decreases n
  {
    if n != 0 {
      NothingToHit(list, Dec(indx, U64), n - 1);
    }
  }

  /** The scan stops if and only if there is a record to find. */
  lemma ScanStops(list: map<nat, Meta>, indx: nat)
    requires InRange(list) && indx < U64
    ensures (exists n :: Rounds(list, indx, n).Found?) <==> list != map[]
  {
    if r :| r in list {
      if r <= indx {
        var n := HitBelow(list, indx, r);
      } else {
        var n := HitAbove(list, indx, r);
      }
    } else {
      assert list == map[];
      forall n ensures Rounds(list, indx, n).Running? {
        NothingToHit(list, indx, n);
      }
    }
  }

  lemma {:induction false} ScanFollowsScanDown(list: map<nat, Meta>, indx: nat)
    requires ScanDown(list, indx).Some?
    ensures ScanDown(list, indx).value <= indx
    ensures Rounds(list, indx, indx - ScanDown(list, indx).value + 1) == Found(ScanDown(list, indx).value)
  {
    if indx !in list {
      ScanFollowsScanDown(list, indx - 1);
    }
  }

  /** On a well-formed entry it stops before it wraps, at the largest live reference. */
  lemma ScanFindsNewest(e: Entry) returns (r: nat)
    requires EntryWF(e)
    ensures r in e.list && (forall k | k in e.list :: k <= r <= e.counter)
    ensures Rounds(e.list, e.counter, e.counter - r + 1) == Found(r) && Recent(e) == Some(e.list[r])
  {
    r := RecentIsLargest(e);
    ScanDownFindsLargest(e.list, e.counter);
    ScanFollowsScanDown(e.list, e.counter);
  }
}
