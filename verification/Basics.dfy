/** Vocabulary shared by every module: bytes, paths, digests, errors, kernel constants. */
module Basics {

  datatype Option<+T> = None | Some(value: T)

  function Get<K, V>(m: map<K, V>, k: K): Option<V> {
    if k in m then Some(m[k]) else None
  }

  newtype byte = x: int | 0 <= x < 256

  type Bytes = seq<byte>

  /** A Go string used as a path: raw bytes. */
  type Path = Bytes

  /** The directory OptiFS is mounted on; other paths are taken relative to it. */
  const ROOT: Path := []

  /** The wrap-around points of the two counter widths in `MapEntry`. */
  const U32: nat := 0x1_0000_0000
  const U64: nat := 0x1_0000_0000_0000_0000

  /** x++ and x-- on an unsigned integer that wraps around at `limit`. */
  function Inc(x: nat, limit: nat): nat { if x + 1 == limit then 0 else x + 1 }

  function Dec(x: nat, limit: nat): nat
    requires limit > 0
  {
    if x == 0 then limit - 1 else x - 1
  }

  lemma CountersWrap(x: nat, limit: nat)
    requires x < limit
    ensures Inc(x, limit) == (x + 1) % limit && Dec(x, limit) == (x - 1) % limit
    ensures Dec(Inc(x, limit), limit) == x == Inc(Dec(x, limit), limit)
  {
    if x == 0 && limit > 1 {
      assert -1 == -1 * limit + (limit - 1);
    }
  }

  /** A `[64]byte` value. */
  type Hash = s: Bytes | |s| == 64 witness Zeros(64)

  /** The all-zero digest that stands for "no block was ever written". */
  const ZERO: Hash := Zeros(64)

  function Zeros(n: nat): (s: Bytes)
    ensures |s| == n
  {
    seq(n, _ => 0 as byte)
  }

  /** BLAKE3-512 is left uninterpreted: every function takes the hash function as a parameter. */
  type Hasher = Bytes -> Hash

  /** The error numbers the modelled code chooses itself; `Kernel` is one passed on from a system call. */
  datatype Errno = OK | ENODATA | ENOENT | ENOLINK | EIO | EEXIST | EBUSY | EINVAL | ERANGE | EBADFD | Kernel

  datatype Timespec = Timespec(sec: int, nsec: int)

  /** The fields of `syscall.Stat_t` that the repository copies. */
  datatype Stat = Stat(
    dev: nat, ino: nat, nlink: int, mode: nat, uid: nat, gid: nat, pad0: int, rdev: nat,
    size: int, blksize: int, blocks: int,
    atim: Timespec, mtim: Timespec, ctim: Timespec, unused: seq<int>)

  datatype StableAttr = StableAttr(ino: nat, gen: nat, mode: nat)

  /** `~(TMP)` and `~(SPARE)`. */
  const TMP_SUFFIX: Bytes := [126, 40, 84, 77, 80, 41]
  const SPARE_SUFFIX: Bytes := [126, 40, 83, 80, 65, 82, 69, 41]

  function TmpPath(p: Path): Path { p + TMP_SUFFIX }

  function SparePath(p: Path): Path { p + SPARE_SUFFIX }

  ghost predicate EndsWith(p: Path, suffix: Bytes) {
    |suffix| <= |p| && p[|p| - |suffix|..] == suffix
  }

  /** A name a user may pick: not empty, and not one Release builds for itself. */
  ghost predicate UserPath(p: Path) {
    p != [] && !EndsWith(p, TMP_SUFFIX) && !EndsWith(p, SPARE_SUFFIX)
  }

  lemma ScratchNamesAreNotUserPaths(p: Path)
    ensures !UserPath(TmpPath(p)) && !UserPath(SparePath(p))
    ensures TmpPath(p) != p && SparePath(p) != p
  {
    var t, s := TmpPath(p), SparePath(p);
    assert t[|t| - |TMP_SUFFIX|..] == TMP_SUFFIX;
    assert s[|s| - |SPARE_SUFFIX|..] == SPARE_SUFFIX;
    assert |t| == |p| + 6 && |s| == |p| + 8;
  }

  lemma PutThenDrop<K, V>(m: map<K, V>, k: K, v: V)
    requires k !in m
    ensures m[k := v] - {k} == m
  {
  }
}
