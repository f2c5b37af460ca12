/** Definitions shared by the kernel driver, the daemon and the EGL platform models:
    an Option type, the errno values the kernel returns, C integer division, the
    message flags of the user-space ABI header, the gralloc native handle, and counting
    of map entries that hold a given value (used by the two file-reference ledgers). */
module Common {

  datatype Option<T> = None | Some(value: T)

  // Linux errno values returned (negated) by the driver entry points.
  const EBADF := 9
  const EAGAIN := 11
  const ENOMEM := 12
  const EFAULT := 14
  const EINVAL := 22
  const ENOSPC := 28
  const ENOSYS := 38
  const ERESTARTSYS := 512

  /** Largest value of a C `int` (INT32_MAX). */
  const Int32Max := 0x7fff_ffff

  /** Flags of a kernel-to-daemon message. The ABI header defines BUF_ID_UPDATED (bit 0)
      and DPMS_UPDATED (bit 1); PRESENT_UPDATED is used by the driver and the daemon but
      defined in no header, so flags are a set rather than a bit mask. */
  datatype Flag = BufIdUpdated | DpmsUpdated | PresentUpdated

  /** C division of `int`s, which truncates toward zero (Dafny's `/` is Euclidean). */
  function CDiv(a: int, b: int): (q: int)
    requires b > 0
    ensures a >= 0 ==> 0 <= q && q * b <= a < q * b + b
    ensures a < 0 ==> q <= 0 && a <= q * b < a + b
  {
    if a >= 0 then DivBounds(a, b); a / b
    else DivBounds(-a, b); -((-a) / b)
  }

  /** Bounds of the Euclidean quotient of a natural number by a positive one. */
  lemma DivBounds(a: int, b: int)
    requires a >= 0 && b > 0
    ensures 0 <= a / b && a / b * b <= a < a / b * b + b
  {
    var q, r := a / b, a % b;
    assert a == q * b + r && 0 <= r < b;
    assert (q + 1) * b == q * b + b;
    assert (q + 1) * b > 0;
  }

  function Min(a: int, b: int): int
  {
    if a <= b then a else b
  }

  /** sizeof(int) on the platforms the system runs on. */
  const IntSize := 4

  /** A gralloc native handle: `numFds` descriptors followed by `numInts` integers. */
  datatype NativeHandle = NativeHandle(numFds: nat, numInts: nat, data: seq<int>)

  /** An open file (`struct file`) is identified by a number. */
  type FileRef = nat

  /** The keys of `m` whose value is `v`: for a descriptor table, the descriptors that
      refer to one file, each of which holds one reference to it. */
  ghost function KeysWith<K, V>(m: map<K, V>, v: V): set<K>
  {
    set k | k in m && m[k] == v
  }

  /** Adding a fresh key adds one holder of its value and none of any other value. */
  lemma KeysWithAdd<K, V>(m: map<K, V>, k: K, v: V, w: V)
    requires k !in m
    ensures |KeysWith(m[k := v], w)| == |KeysWith(m, w)| + (if v == w then 1 else 0)
  {
    if v == w {
      assert KeysWith(m[k := v], w) == KeysWith(m, w) + {k};
    } else {
      assert KeysWith(m[k := v], w) == KeysWith(m, w);
    }
  }

  /** Removing a key removes one holder of its value and none of any other value. */
  lemma KeysWithRemove<K, V>(m: map<K, V>, k: K, w: V)
    requires k in m
    ensures |KeysWith(m - {k}, w)| == |KeysWith(m, w)| - (if m[k] == w then 1 else 0)
  {
    if m[k] == w {
      assert KeysWith(m, w) == KeysWith(m - {k}, w) + {k};
    } else {
      assert KeysWith(m - {k}, w) == KeysWith(m, w);
    }
  }
}
