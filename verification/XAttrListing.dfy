/** ListCustomXAttr: the names of a map sorted, NUL-terminated and copied into the caller's buffer, with the
    sizes counted in a uint32. */
module XAttrListing {
  import opened Basics
  import opened MetadataStore

  // ---------- the order of Go strings ----------

  predicate Less(a: Bytes, b: Bytes) {
    b != [] && (a == [] || a[0] < b[0] || (a[0] == b[0] && Less(a[1..], b[1..])))
  }

  lemma {:induction false} LessIrreflexive(a: Bytes)
    ensures !Less(a, a)
  {
    if a != [] {
      LessIrreflexive(a[1..]);
    }
  }

  lemma {:induction false} LessTransitive(a: Bytes, b: Bytes, c: Bytes)
    requires Less(a, b) && Less(b, c)
    ensures Less(a, c)
  {
    if a != [] && a[0] == b[0] == c[0] {
      LessTransitive(a[1..], b[1..], c[1..]);
    }
  }

  lemma {:induction false} LessTotal(a: Bytes, b: Bytes)
    ensures Less(a, b) || a == b || Less(b, a)
  {
    if a != [] && b != [] && a[0] == b[0] {
      LessTotal(a[1..], b[1..]);
      assert a == [a[0]] + a[1..] && b == [b[0]] + b[1..];
    }
  }

  ghost predicate Increasing(s: seq<Bytes>) {
    forall i, j | 0 <= i < j < |s| :: Less(s[i], s[j])
  }

  ghost function ElementsOf(s: seq<Bytes>): set<Bytes> { set x | x in s }

  lemma NoElements(s: seq<Bytes>)
    ensures ElementsOf(s) == {} <==> s == []
  {
    if s != [] {
      assert s[0] in ElementsOf(s);
    }
  }

  lemma ElementsAppend(s: seq<Bytes>, x: Bytes)
    ensures ElementsOf(s + [x]) == ElementsOf(s) + {x}
  {
  }

  /** Only one increasing sequence has a given set of elements. */
  lemma {:induction false} IncreasingIsUnique(s: seq<Bytes>, t: seq<Bytes>)
    requires Increasing(s) && Increasing(t) && ElementsOf(s) == ElementsOf(t)
    ensures s == t
  {
    if s == [] {
      NoElements(t);
    } else {
      assert s[0] in ElementsOf(s);
      SameFirst(s, t);
      SameRest(s, t);
      IncreasingIsUnique(s[1..], t[1..]);
      assert s == [s[0]] + s[1..] && t == [t[0]] + t[1..];
    }
  }

  lemma SameFirst(s: seq<Bytes>, t: seq<Bytes>)
    requires Increasing(s) && Increasing(t) && ElementsOf(s) == ElementsOf(t) && s != []
    ensures t != [] && t[0] == s[0]
  {
    assert s[0] in ElementsOf(t);
    var j :| 0 <= j < |t| && t[j] == s[0];
    assert t[0] in ElementsOf(s);
    var i :| 0 <= i < |s| && s[i] == t[0];
    if i > 0 && j > 0 {
      LessTransitive(s[0], s[i], s[0]);
      LessIrreflexive(s[0]);
    }
  }

  lemma SameRest(s: seq<Bytes>, t: seq<Bytes>)
    requires Increasing(s) && Increasing(t) && ElementsOf(s) == ElementsOf(t) && s != [] && t != [] && t[0] == s[0]
    ensures Increasing(s[1..]) && Increasing(t[1..]) && ElementsOf(s[1..]) == ElementsOf(t[1..])
  {
    RestOf(s);
    RestOf(t);
  }

  lemma RestOf(s: seq<Bytes>)
    requires Increasing(s) && s != []
    ensures Increasing(s[1..]) && ElementsOf(s[1..]) == ElementsOf(s) - {s[0]}
  {
    forall x | x in s[1..] ensures x != s[0] {
      LessIrreflexive(x);
    }
    forall x | x in s && x != s[0] ensures x in s[1..] {
      var i :| 0 <= i < |s| && s[i] == x;
      assert s[1..][i - 1] == x;
    }
  }

  // ---------- the listing and its inverse ----------

  function Joined(names: seq<Bytes>): Bytes {
    if names == [] then [] else names[0] + [0] + Joined(names[1..])
  }

  function TotalSize(names: seq<Bytes>): nat {
    if names == [] then 0 else |names[0]| + 1 + TotalSize(names[1..])
  }

  lemma {:induction false} JoinedSize(names: seq<Bytes>)
    ensures |Joined(names)| == TotalSize(names)
  {
    if names != [] {
      JoinedSize(names[1..]);
    }
  }

  lemma {:induction false} JoinedAppend(names: seq<Bytes>, x: Bytes)
    ensures Joined(names + [x]) == Joined(names) + x + [0]
    ensures TotalSize(names + [x]) == TotalSize(names) + |x| + 1
  {
    if names == [] {
      assert [x][1..] == [] && names + [x] == [x];
    } else {
      assert (names + [x])[1..] == names[1..] + [x];
      JoinedAppend(names[1..], x);
    }
  }

  function FirstNul(b: Bytes): (n: nat)
    ensures n <= |b| && (n < |b| ==> b[n] == 0) && forall i | 0 <= i < n :: b[i] != 0
  {
    if b == [] || b[0] == 0 then 0 else 1 + FirstNul(b[1..])
  }

  function SplitAtNuls(b: Bytes): seq<Bytes> {
    var n := FirstNul(b);
    if n == |b| then (if b == [] then [] else [b]) else [b[..n]] + SplitAtNuls(b[n + 1..])
  }

  ghost predicate NulFree(x: Bytes) { forall i | 0 <= i < |x| :: x[i] != 0 }

  /** Splitting at NULs undoes the listing. */
  lemma {:induction false} SplitUndoesJoin(names: seq<Bytes>)
    requires forall x | x in names :: NulFree(x)
    ensures SplitAtNuls(Joined(names)) == names
  {
    if names != [] {
      var x, rest := names[0], Joined(names[1..]);
      var b := x + [0] + rest;
      assert x in names && NulFree(x);
      assert b[|x|] == 0 && forall i | 0 <= i < |x| :: b[i] == x[i];
      assert FirstNul(b) == |x|;
      assert b[..|x|] == x && b[|x| + 1..] == rest;
      SplitUndoesJoin(names[1..]);
    }
  }

  // ---------- the loops ----------

  /** `sort.Strings` */
  method SortStrings(names: seq<Bytes>) returns (sorted: seq<Bytes>)
    requires forall i, j | 0 <= i < j < |names| :: names[i] != names[j]
    ensures Increasing(sorted) && ElementsOf(sorted) == ElementsOf(names)
  {
    sorted := [];
    for n := 0 to |names|
      invariant Increasing(sorted) && ElementsOf(sorted) == ElementsOf(names[..n])
    {
      assert names[n] !in ElementsOf(names[..n]);
      assert names[..n + 1] == names[..n] + [names[n]];
      ElementsAppend(names[..n], names[n]);
      sorted := Insert(sorted, names[n]);
    }
    assert names[..|names|] == names;
  }

  method Insert(s: seq<Bytes>, x: Bytes) returns (t: seq<Bytes>)
    requires Increasing(s) && x !in s
    ensures Increasing(t) && ElementsOf(t) == ElementsOf(s) + {x}
  {
    var i := 0;
    while i < |s| && Less(s[i], x)
      invariant 0 <= i <= |s| && forall k | 0 <= k < i :: Less(s[k], x)
    {
      i := i + 1;
    }
    forall k | i <= k < |s| ensures Less(x, s[k]) {
      LessTotal(s[i], x);
      if k > i {
        LessTransitive(x, s[i], s[k]);
      }
    }
    t := s[..i] + [x] + s[i..];
    assert s == s[..i] + s[i..];
  }

  method KeysInSomeOrder(m: XAttrMap) returns (names: seq<Bytes>)
    ensures ElementsOf(names) == m.attrs.Keys
    ensures forall i, j | 0 <= i < j < |names| :: names[i] != names[j]
  {
    names := [];
    var todo := m.attrs.Keys;
    while todo != {}
      invariant todo <= m.attrs.Keys && ElementsOf(names) == m.attrs.Keys - todo
      invariant forall i, j | 0 <= i < j < |names| :: names[i] != names[j]
    {
      var x :| x in todo;
      assert x !in ElementsOf(names);
      todo := todo - {x};
      ElementsAppend(names, x);
      names := names + [x];
    }
  }

  /** The accumulating loop; the size is a uint32. */
  method Accumulate(names: seq<Bytes>) returns (buffer: Bytes, size: nat)
    ensures buffer == Joined(names) && size == TotalSize(names) % U32
  {
    buffer, size := [], 0;
    for n := 0 to |names|
      invariant buffer == Joined(names[..n]) && size == TotalSize(names[..n]) % U32
    {
      JoinedAppend(names[..n], names[n]);
      assert names[..n + 1] == names[..n] + [names[n]];
      WrapSum(TotalSize(names[..n]), |names[n]|);
      size := (size + (|names[n]| % U32 + 1) % U32) % U32;
      buffer := buffer + names[n] + [0];
    }
    assert names[..|names|] == names;
  }

  lemma WrapSum(a: nat, b: nat)
    ensures (a % U32 + (b % U32 + 1) % U32) % U32 == (a + b + 1) % U32
  {
  }

  function Min(a: nat, b: nat): nat { if a <= b then a else b }

  /** `names` is how the keys come out sorted. Only a non-empty map can be out of range, and an empty one or a
      buffer that is too short leaves the buffer alone. */
  method ListCustomXAttr(m: MapEntryMetadata?, dest: array<byte>)
    returns (size: nat, err: Errno, ghost names: seq<Bytes>)
    modifies dest
    ensures if m == null || m.xattr == null then err == ENODATA && size == 0 && dest[..] == old(dest[..])
            else
              Increasing(names) && ElementsOf(names) == m.xattr.attrs.Keys &&
              Answer(names, old(dest[..]), dest[..], size, err)
  {
    names := [];
    if m == null || m.xattr == null {
      return 0, ENODATA, names;
    }
    if m.xattr.attrs == map[] {
      return 0, OK, names;
    }
    var keys := KeysInSomeOrder(m.xattr);
    var attrNames := SortStrings(keys);
    names := attrNames;
    assert names != [] by {
      var x :| x in m.xattr.attrs.Keys;
      assert x in ElementsOf(names);
    }
    var buffer, total := Accumulate(attrNames);
    if dest.Length % U32 < total {
      return total, ERANGE, names;
    }
    CopyInto(dest, buffer);
    return total, OK, names;
  }

  /** `copy(dest, src)` */
  method CopyInto(dest: array<byte>, src: Bytes)
    modifies dest
    ensures dest[..] == src[..Min(|src|, dest.Length)] + old(dest[..])[Min(|src|, dest.Length)..]
  {
    var n := Min(|src|, dest.Length);
    for i := 0 to n
      invariant dest[..] == src[..i] + old(dest[..])[i..]
    {
      dest[i] := src[i];
    }
  }

  /** What a listing of `names` returns and leaves in the buffer. */
  ghost predicate Answer(names: seq<Bytes>, before: Bytes, after: Bytes, size: nat, err: Errno) {
    var n := Min(|Joined(names)|, |before|);
    && size == TotalSize(names) % U32
    && err == (if names != [] && |before| % U32 < size then ERANGE else OK)
    && after == if err == ERANGE then before else Joined(names)[..n] + before[n..]
  }

  /** As long as the size does not overflow: splitting what was returned at NULs gives exactly the keys in
      increasing order, the size is the sum of the lengths plus one each, bytes past it are untouched, and a
      map with names is out of range exactly when the buffer is shorter than that (a buffer of 2^32 bytes or
      more is compared by its length modulo 2^32). */
  lemma ListingRoundTrip(names: seq<Bytes>, before: Bytes, after: Bytes, size: nat, err: Errno)
    requires Answer(names, before, after, size, err)
    requires TotalSize(names) < U32 && forall x | x in names :: NulFree(x)
    ensures size == TotalSize(names) && |after| == |before|
    ensures names != [] && |before| < U32 ==> (err == ERANGE <==> |before| < size)
    ensures err == ERANGE ==> after == before
    ensures err == OK ==> size <= |after| && SplitAtNuls(after[..size]) == names && after[size..] == before[size..]
  {
    hide Zeros;
    JoinedSize(names);
    SplitUndoesJoin(names);
    assert |before| % U32 <= |before|;
    if err == OK {
      assert Joined(names)[..size] == Joined(names);
      assert after[..size] == Joined(names);
    }
  }

  /** The answer depends on the set of keys alone: not on the values, and not on the order of the map. */
  lemma ListingIsDeterministic(a: seq<Bytes>, b: seq<Bytes>, before: Bytes, after: Bytes, after': Bytes, size: nat,
                               size': nat,
                               err: Errno, err': Errno)
    requires Increasing(a) && Increasing(b) && ElementsOf(a) == ElementsOf(b)
    requires Answer(a, before, after, size, err) && Answer(b, before, after', size', err')
    ensures size == size' && err == err' && after == after'
  {
    IncreasingIsUnique(a, b);
  }

  /** Whatever buffer shorter than 2^32 bytes it is given, the listing says ERANGE exactly when it does not fit. */
  ghost predicate SaysWhenShort(names: seq<Bytes>) {
    forall before, after, size, err | Answer(names, before, after, size, err) && |before| < U32 ::
      err == ERANGE <==> |before| < TotalSize(names)
  }

  /** The exact condition: the sizes that are compared must not have wrapped around. Otherwise a buffer of 2^32 - 1
      bytes gets a cut-off listing without a word. */
  lemma OverflowIsNotNoticed(names: seq<Bytes>)
    requires names != []
    ensures SaysWhenShort(names) <==> TotalSize(names) < U32
  {
    hide Zeros;
    if TotalSize(names) >= U32 {
      var before := Zeros(U32 - 1);
      var n := Min(|Joined(names)|, |before|);
      assert Answer(names, before, Joined(names)[..n] + before[n..], TotalSize(names) % U32, OK);
    }
  }

  // ---------- names that reach the condition ----------

  function Prefixed(c: byte,
                    names: seq<Bytes>): seq<Bytes> { seq(|names|, i requires 0 <= i < |names| => [c] + names[i]) }

  /** All names of n bytes that are 1 or 2, in order. */
  function Binary(n: nat): seq<Bytes> {
    if n == 0 then [[]] else Prefixed(1, Binary(n - 1)) + Prefixed(2, Binary(n - 1))
  }

  function PowerOfTwo(n: nat): nat { if n == 0 then 1 else 2 * PowerOfTwo(n - 1) }

  lemma PrefixedLess(c: byte, a: Bytes, b: Bytes)
    ensures Less([c] + a, [c] + b) <==> Less(a, b)
  {
    assert ([c] + a)[1..] == a && ([c] + b)[1..] == b;
  }

  lemma PrefixesIncrease(half: seq<Bytes>)
    requires Increasing(half)
    ensures Increasing(Prefixed(1, half) + Prefixed(2, half))
  {
    var all := Prefixed(1, half) + Prefixed(2, half);
    forall i, j | 0 <= i < j < |all| ensures Less(all[i], all[j]) {
      if j < |half| {
        PrefixedLess(1, half[i], half[j]);
      } else if i >= |half| {
        PrefixedLess(2, half[i - |half|], half[j - |half|]);
      }
    }
  }

  ghost predicate OfLength(names: seq<Bytes>, n: nat) { forall x | x in names :: |x| == n && NulFree(x) }

  lemma PrefixesGrow(half: seq<Bytes>, n: nat)
    requires OfLength(half, n)
    ensures OfLength(Prefixed(1, half) + Prefixed(2, half), n + 1)
  {
    forall i | 0 <= i < |half| ensures NulFree([1] + half[i]) && NulFree([2] + half[i]) {
      assert half[i] in half;
    }
  }

  lemma {:induction false} BinaryNames(n: nat)
    ensures Increasing(Binary(n)) && |Binary(n)| == PowerOfTwo(n) && OfLength(Binary(n), n)
  {
    if n > 0 {
      BinaryNames(n - 1);
      PrefixesIncrease(Binary(n - 1));
      PrefixesGrow(Binary(n - 1), n - 1);
    }
  }

  lemma OneMore(k: nat, n: nat)
    ensures (k + 1) * n == k * n + n
  {
  }

  lemma {:induction false} EqualLengths(names: seq<Bytes>, n: nat)
    requires OfLength(names, n)
    ensures TotalSize(names) == |names| * (n + 1)
  {
    if names != [] {
      EqualLengths(names[1..], n);
      OneMore(|names| - 1, n + 1);
    }
  }

  lemma {:induction false} PowersMultiply(a: nat, b: nat)
    ensures PowerOfTwo(a + b) == PowerOfTwo(a) * PowerOfTwo(b)
  {
    if a > 0 {
      PowersMultiply(a - 1, b);
      assert PowerOfTwo(a + b) == 2 * PowerOfTwo(a - 1 + b);
    }
  }

  lemma PowerOf28()
    ensures PowerOfTwo(28) == 0x1000_0000
  {
    PowersMultiply(14, 14);
    PowersMultiply(7, 7);
    PowersMultiply(4, 3);
    assert PowerOfTwo(2) == 4;
    PowersMultiply(2, 2);
    assert PowerOfTwo(3) == 2 * PowerOfTwo(2);
  }

  /** Names of 28 bytes are enough. */
  lemma OverflowIsReached() returns (names: seq<Bytes>)
    ensures Increasing(names) && OfLength(names, 28) && TotalSize(names) >= U32 && !SaysWhenShort(names)
  {
    hide Binary, TotalSize, SaysWhenShort, Increasing, OfLength, PowerOfTwo;
    names := Binary(28);
    BinaryNames(28);
    EqualLengths(names, 28);
    PowerOf28();
    assert names != [];
    OverflowIsNotNoticed(names);
  }
}
