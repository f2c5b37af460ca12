/** The client side of the EGL platform (eglplatform/eglplatform_membrane.cpp): a window
    with four gralloc buffers cycled through the free, dequeued and queued states,
    reallocation when the size, format, usage or count changes, wl_buffer creation from
    each buffer's dma-buf descriptors, and the surface requests of a swap with its damage
    flipped to the buffer's bottom-up coordinates.

    Gralloc, Wayland and EGL sync calls are outcomes given as parameters; the Wayland
    requests the window sends are logged in order. A descriptor duplicated only to be
    handed to a request and closed again is logged as the descriptor it duplicates. */
module EglWindow {
  import opened Common

  // Buffer states held in `busy`.
  const Free := 0
  const Dequeued := 1
  const Queued := 2

  const MaxBuffers := 4               // m_buffers[4]
  const MaxCachedFds := 4             // m_cached_fds[4]
  const DefaultBufferCount := 3
  const HalPixelFormatRgba8888 := 1
  const UsageHwTexture: bv64 := 0x100
  const UsageHwRender: bv64 := 0x200
  const DrmFormatArgb8888 := 0x3432_5241
  const DamageBufferSinceVersion := 4

  /** Usage bits every window buffer carries. */
  const WindowUsage: bv64 := UsageHwRender | UsageHwTexture

  /** A buffer's `busy` state. */
  type BufferState = b: int | Free <= b <= Queued

  /** m_num_fds once clamped to the cached descriptors. */
  type CachedFdCount = n: int | 0 <= n <= MaxCachedFds

  /** m_meta_fd: a descriptor, or -1 for none. */
  type MetaFd = fd: int | fd >= -1 witness -1

  datatype Rect = Rect(x: int, y: int, w: int, h: int)

  /** A gralloc allocation: its handle, its stride in pixels, its descriptors and the
      number of integers after them in the native handle. */
  datatype GrallocBuffer = GrallocBuffer(handle: nat, stride: int, fds: seq<int>, numInts: nat)

  /** Requests sent on the Wayland connection. */
  datatype WlRequest =
    | CreateParams
    | AddPlane(fd: int, plane: int, stride: int)
    | CreateImmed(width: int, height: int, format: int)
    | DestroyParams
    | DestroyBuffer(wl: nat)
    | Attach(buffer: Option<nat>)
    | Damage(r: Rect)
    | DamageBuffer(r: Rect)
    | FrameCallback
    | Commit

  // ---------------------------------------------------------------------------------
  // The cached descriptor count

  /** m_num_fds as allocate stores it: gralloc's descriptor count, unclamped. */
  function NumFdsAsWritten(grallocFds: nat): nat
  {
    grallocFds
  }

  /** A gralloc buffer with five descriptors makes the loops of release and
      createWlBuffer, bounded by m_num_fds as written, run past the four entries of
      m_cached_fds. */
  lemma CachedFdsOverrun()
    ensures NumFdsAsWritten(5) > MaxCachedFds
  {
  }

  /** m_num_fds clamped to the descriptors actually cached. */
  function CachedCount(grallocFds: nat): (n: nat)
    ensures n <= MaxCachedFds
    ensures n <= grallocFds
    ensures grallocFds <= MaxCachedFds ==> n == grallocFds
  {
    Min(grallocFds, MaxCachedFds)
  }

  /** The descriptors of `fds` that are open (non-negative), in order. */
  function OpenFds(fds: seq<int>): (open: seq<int>)
    ensures |open| <= |fds|
    ensures forall fd :: fd in open ==> fd in fds && fd >= 0
  {
    if fds == [] then []
    else OpenFds(fds[..|fds| - 1]) + (if fds[|fds| - 1] >= 0 then [fds[|fds| - 1]] else [])
  }

  /** One more descriptor adds itself when it is open. */
  lemma OpenFdsStep(fds: seq<int>, i: nat)
    requires i < |fds|
    ensures OpenFds(fds[..i + 1]) == OpenFds(fds[..i]) + (if fds[i] >= 0 then [fds[i]] else [])
  {
    assert fds[..i + 1][..i] == fds[..i];
  }

  /** Every open descriptor of `fds` is among the open ones. */
  lemma {:induction false} OpenFdsHas(fds: seq<int>, k: nat)
    requires k < |fds| && fds[k] >= 0
    ensures fds[k] in OpenFds(fds)
    decreases |fds|
  {
    var init := fds[..|fds| - 1];
    if k < |fds| - 1 {
      OpenFdsHas(init, k);
      assert init[k] == fds[k];
    }
  }

  // ---------------------------------------------------------------------------------
  // MembraneNativeWindowBuffer

  class WindowBuffer {
    var busy: BufferState
    var wl: Option<nat>                 // m_wl_buffer
    var handle: Option<nat>             // the gralloc handle
    var width: int
    var height: int
    var format: int
    var usage: bv64
    var stride: int
    const cachedFds: array<int>         // m_cached_fds
    var numFds: CachedFdCount           // m_num_fds
    var metaFd: MetaFd                  // m_meta_fd
    var closed: seq<int>                // descriptors this buffer has closed, in order

    ghost predicate Valid()
    {
      cachedFds.Length == MaxCachedFds
    }

    /** A released buffer holds no handle, no wl_buffer and no descriptor. */
    ghost predicate Released()
      reads this
    {
      handle == None && wl == None && numFds == 0 && metaFd == -1 && busy == Free
    }

    constructor ()
      ensures Valid() && Released() && fresh(cachedFds) && closed == []
      ensures width == 0 && height == 0 && format == 0 && usage == 0 && stride == 0
    {
      busy, wl, handle := Free, None, None;
      width, height, format, usage, stride := 0, 0, 0, 0, 0;
      cachedFds := new int[MaxCachedFds];
      numFds, metaFd, closed := 0, -1, [];
    }

    /** allocate, with m_num_fds clamped to the cached descriptors. The geometry is
        recorded and the buffer marked free whatever gralloc answers. On success the
        first descriptors, at most four, are cached as their duplicates `dups`, and when
        the handle carries integers they are copied into a new memory file: `memfd` is
        what memfd_create returned and `metaWritten` whether sizing and writing it
        succeeded; if not, the file is closed and allocation fails. */
    method Allocate(w: int, h: int, fmt: int, usg: bv64, alloc: Option<GrallocBuffer>,
                    dups: seq<int>, memfd: int, metaWritten: bool) returns (ok: bool)
      requires Valid()
      requires alloc.Some? ==> |dups| >= CachedCount(|alloc.value.fds|)
      requires memfd >= -1
      modifies this, cachedFds
      ensures Valid()
      ensures busy == Free && width == w && height == h && format == fmt && usage == usg
      ensures wl == old(wl)
      ensures alloc.None? ==>
        && !ok && handle == None && numFds == old(numFds) && metaFd == old(metaFd)
        && stride == old(stride) && closed == old(closed) && cachedFds[..] == old(cachedFds[..])
      ensures alloc.Some? ==>
        var g := alloc.value;
        var n := CachedCount(|g.fds|);
        && handle == Some(g.handle) && stride == g.stride && numFds == n
        && cachedFds[..n] == dups[..n]
        && (forall i :: n <= i < MaxCachedFds ==> cachedFds[i] == old(cachedFds[i]))
        && (g.numInts == 0 ==> ok && metaFd == old(metaFd) && closed == old(closed))
        && (g.numInts > 0 && memfd < 0 ==> ok && metaFd == memfd && closed == old(closed))
        && (g.numInts > 0 && memfd >= 0 && metaWritten ==> ok && metaFd == memfd && closed == old(closed))
        && (g.numInts > 0 && memfd >= 0 && !metaWritten ==> !ok && metaFd == -1 && closed == old(closed) + [memfd])
    {
      busy, width, height, format, usage := Free, w, h, fmt, usg;
      handle := None;
      if alloc.None? {
        return false;
      }
      var g := alloc.value;
      handle, stride := Some(g.handle), g.stride;
      numFds := CachedCount(|g.fds|);
      CacheFds(dups, numFds);
      ok := true;
      if g.numInts > 0 {
        metaFd := memfd;
        if metaFd >= 0 && !metaWritten {
          closed := closed + [metaFd];
          metaFd := -1;
          ok := false;
        }
      }
    }

    /** The copy loop of allocate(): the first `n` slots receive the duplicated
        descriptors, the others keep theirs. */
    method CacheFds(dups: seq<int>, n: nat)
      requires Valid() && n <= MaxCachedFds && n <= |dups|
      modifies cachedFds
      ensures cachedFds[..n] == dups[..n]
      ensures forall j :: n <= j < MaxCachedFds ==> cachedFds[j] == old(cachedFds[j])
    {
      var i := 0;
      while i < n
        invariant 0 <= i <= n
        invariant cachedFds[..i] == dups[..i]
        invariant forall j :: i <= j < MaxCachedFds ==> cachedFds[j] == old(cachedFds[j])
      {
        cachedFds[i] := dups[i];
        i := i + 1;
      }
    }

    /** The loop of release() over the cached descriptors: each open one is closed and
        its slot set to -1; `shut` lists the closed ones in slot order. */
    method CloseCachedFds() returns (shut: seq<int>)
      requires Valid()
      modifies cachedFds
      ensures shut == OpenFds(old(cachedFds[..numFds]))
      ensures forall i :: 0 <= i < numFds ==>
        cachedFds[i] == if old(cachedFds[i]) >= 0 then -1 else old(cachedFds[i])
      ensures forall i :: numFds <= i < MaxCachedFds ==> cachedFds[i] == old(cachedFds[i])
    {
      ghost var cached := cachedFds[..numFds];
      shut := [];
      var i := 0;
      while i < numFds
        invariant 0 <= i <= numFds
        invariant shut == OpenFds(cached[..i])
        invariant forall j :: 0 <= j < i ==>
          cachedFds[j] == if cached[j] >= 0 then -1 else cached[j]
        invariant forall j :: i <= j < MaxCachedFds ==> cachedFds[j] == old(cachedFds[j])
      {
        OpenFdsStep(cached, i);
        if cachedFds[i] >= 0 {
          shut := shut + [cachedFds[i]];
          cachedFds[i] := -1;
        }
        i := i + 1;
      }
      assert cached[..i] == cached;
    }

    /** release: the wl_buffer is destroyed, every open cached descriptor is closed and
        reset, the metadata file is closed, the gralloc handle is released, and the
        buffer is left empty and free. Returns the destroyed wl_buffer and the released
        handle. */
    method Release() returns (destroyedWl: Option<nat>, releasedHandle: Option<nat>)
      requires Valid()
      modifies this, cachedFds
      ensures Valid() && Released()
      ensures destroyedWl == old(wl) && releasedHandle == old(handle)
      ensures closed == old(closed) + OpenFds(old(cachedFds[..numFds]))
                      + (if old(metaFd) >= 0 then [old(metaFd)] else [])
      ensures forall i :: 0 <= i < old(numFds) ==>
        cachedFds[i] == if old(cachedFds[i]) >= 0 then -1 else old(cachedFds[i])
      ensures forall i :: old(numFds) <= i < MaxCachedFds ==> cachedFds[i] == old(cachedFds[i])
      ensures width == old(width) && height == old(height) && format == old(format)
      ensures usage == old(usage) && stride == old(stride)
    {
      destroyedWl, releasedHandle := wl, handle;
      var shut := CloseCachedFds();
      shut := closed + shut;
      if metaFd >= 0 {
        shut := shut + [metaFd];
        metaFd := -1;
      }
      wl, handle, numFds, busy, closed := None, None, 0, Free, shut;
    }
  }

  // ---------------------------------------------------------------------------------
  // Damage

  /** A damage rectangle in EGL's bottom-up coordinates as the surface sees it, for a
      buffer `height` rows tall: the same rectangle mirrored vertically. */
  function Flip(r: Rect, height: int): (f: Rect)
    ensures f.x == r.x && f.w == r.w && f.h == r.h
    ensures f.y + f.h == height - r.y
  {
    Rect(r.x, height - r.y - r.h, r.w, r.h)
  }

  /** Flipping twice gives the rectangle back. */
  lemma FlipInvolution(r: Rect, height: int)
    ensures Flip(Flip(r, height), height) == r
  {
  }

  /** The damage request for one rectangle: damage_buffer from the surface version that
      has it, plain damage before. */
  function DamageRequest(r: Rect, surfaceVersion: nat): WlRequest
  {
    if surfaceVersion >= DamageBufferSinceVersion then DamageBuffer(r) else Damage(r)
  }

  /** The damage requests for `rects` on a buffer `height` rows tall, in order. */
  function DamageRequests(rects: seq<Rect>, height: int, surfaceVersion: nat): (reqs: seq<WlRequest>)
    ensures |reqs| == |rects|
    ensures forall i :: 0 <= i < |rects| ==> reqs[i] == DamageRequest(Flip(rects[i], height), surfaceVersion)
  {
    if rects == [] then []
    else DamageRequests(rects[..|rects| - 1], height, surfaceVersion)
         + [DamageRequest(Flip(rects[|rects| - 1], height), surfaceVersion)]
  }

  /** Damage covering the whole surface. */
  const FullDamage := Rect(0, 0, Int32Max, Int32Max)

  /** The damage sent by a swap: the flipped rectangles when there are some and a buffer
      has ever been attached, otherwise the whole surface when a buffer is attached now,
      otherwise none. */
  function SwapDamage(rects: seq<Rect>, attachedHeight: int, attaching: bool, surfaceVersion: nat): (reqs: seq<WlRequest>)
    ensures |rects| > 0 && attachedHeight > 0 ==>
      && |reqs| == |rects|
      && forall i :: 0 <= i < |rects| ==> reqs[i] == DamageRequest(Flip(rects[i], attachedHeight), surfaceVersion)
    ensures !(|rects| > 0 && attachedHeight > 0) && attaching ==>
      reqs == [DamageRequest(FullDamage, surfaceVersion)]
    ensures !(|rects| > 0 && attachedHeight > 0) && !attaching ==> reqs == []
  {
    if |rects| > 0 && attachedHeight > 0 then DamageRequests(rects, attachedHeight, surfaceVersion)
    else if attaching then [DamageRequest(FullDamage, surfaceVersion)]
    else []
  }

  // ---------------------------------------------------------------------------------
  // Counting and searching buffer states

  /** Number of entries of `states` equal to Queued. */
  function CountQueued(states: seq<int>): (n: nat)
    ensures n <= |states|
  {
    if states == [] then 0
    else CountQueued(states[..|states| - 1]) + (if states[|states| - 1] == Queued then 1 else 0)
  }

  /** Counting one more entry adds one exactly when that entry is queued. */
  lemma CountQueuedStep(states: seq<int>, i: nat)
    requires i < |states|
    ensures CountQueued(states[..i + 1])
            == CountQueued(states[..i]) + (if states[i] == Queued then 1 else 0)
  {
    assert states[..i + 1][..i] == states[..i];
  }

  /** Queueing a buffer that was not queued adds exactly one to the count. */
  lemma {:induction false} CountQueuedAfterQueue(states: seq<int>, i: nat)
    requires i < |states| && states[i] != Queued
    ensures CountQueued(states[i := Queued]) == CountQueued(states) + 1
    decreases |states|
  {
    var last := |states| - 1;
    if i < last {
      CountQueuedAfterQueue(states[..last], i);
      assert states[i := Queued][..last] == states[..last][i := Queued];
    } else {
      assert states[i := Queued][..last] == states[..last];
    }
  }

  /** Freeing a queued buffer takes exactly one from the count. */
  lemma {:induction false} CountQueuedAfterFree(states: seq<int>, i: nat)
    requires i < |states| && states[i] == Queued
    ensures CountQueued(states[i := Free]) == CountQueued(states) - 1
    decreases |states|
  {
    var last := |states| - 1;
    if i < last {
      CountQueuedAfterFree(states[..last], i);
      assert states[i := Free][..last] == states[..last][i := Free];
    } else {
      assert states[i := Free][..last] == states[..last];
    }
  }

  /** The first index below `n` whose entry is `Some(w)`, searching from `from`. */
  function FirstMatchFrom(s: seq<Option<nat>>, n: int, w: nat, from: nat): (k: Option<nat>)
    requires from <= |s|
    ensures k.Some? ==>
      && from <= k.value < n && k.value < |s| && s[k.value] == Some(w)
      && forall j :: from <= j < k.value ==> s[j] != Some(w)
    ensures k.None? ==> forall j :: from <= j < n && j < |s| ==> s[j] != Some(w)
    decreases |s| - from
  {
    if from >= n || from == |s| then None
    else if s[from] == Some(w) then Some(from)
    else FirstMatchFrom(s, n, w, from + 1)
  }

  /** The first of the first `n` entries that is `Some(w)`. */
  function FirstMatch(s: seq<Option<nat>>, n: int, w: nat): (k: Option<nat>)
    ensures k.Some? ==>
      && 0 <= k.value < n && k.value < |s| && s[k.value] == Some(w)
      && forall j :: 0 <= j < k.value ==> s[j] != Some(w)
    ensures k.None? ==> forall j :: 0 <= j < n && j < |s| ==> s[j] != Some(w)
  {
    FirstMatchFrom(s, n, w, 0)
  }

  /** One plane per descriptor, with a byte stride of four bytes per pixel. */
  function PlaneRequests(fds: seq<int>, stride: int): (reqs: seq<WlRequest>)
    ensures |reqs| == |fds|
    ensures forall i :: 0 <= i < |fds| ==> reqs[i] == AddPlane(fds[i], i, stride * 4)
  {
    seq(|fds|, i requires 0 <= i < |fds| => AddPlane(fds[i], i, stride * 4))
  }

  /** The requests createWlBuffer sends for a buffer's descriptors once the parameters
      object is created: one plane per cached descriptor, the metadata file as the
      plane after them with stride 1, the creation of a wl_buffer of the buffer's size
      in ARGB8888, and the destruction of the parameters object. */
  function ParamsRequests(fds: seq<int>, metaFd: int, stride: int, w: int, h: int): (reqs: seq<WlRequest>)
    ensures |reqs| == |fds| + (if metaFd >= 0 then 1 else 0) + 3
    ensures reqs[0] == CreateParams
    ensures forall i :: 0 <= i < |fds| ==> reqs[1 + i] == AddPlane(fds[i], i, stride * 4)
    ensures metaFd >= 0 ==> reqs[1 + |fds|] == AddPlane(metaFd, |fds|, 1)
    ensures reqs[|reqs| - 2] == CreateImmed(w, h, DrmFormatArgb8888)
    ensures reqs[|reqs| - 1] == DestroyParams
  {
    [CreateParams]
    + PlaneRequests(fds, stride)
    + (if metaFd >= 0 then [AddPlane(metaFd, |fds|, 1)] else [])
    + [CreateImmed(w, h, DrmFormatArgb8888), DestroyParams]
  }

  // ---------------------------------------------------------------------------------
  // MembraneNativeWindow

  /** The wl_buffer destructions destroyBuffers sends: one per buffer holding a
      wl_buffer, in buffer order. */
  function DestroyRequests(wls: seq<Option<nat>>): (reqs: seq<WlRequest>)
    ensures |reqs| <= |wls|
  {
    if wls == [] then []
    else DestroyRequests(wls[..|wls| - 1])
         + (if wls[|wls| - 1].Some? then [DestroyBuffer(wls[|wls| - 1].value)] else [])
  }

  /** One more buffer adds its wl_buffer's destruction, if it holds one. */
  lemma DestroyRequestsStep(wls: seq<Option<nat>>, i: nat)
    requires i < |wls|
    ensures DestroyRequests(wls[..i + 1])
            == DestroyRequests(wls[..i]) + (if wls[i].Some? then [DestroyBuffer(wls[i].value)] else [])
  {
    assert wls[..i + 1][..i] == wls[..i];
  }

  /** Exactly the wl_buffers present are destroyed, and nothing else is requested. */
  lemma {:induction false} DestroyRequestsExact(wls: seq<Option<nat>>, r: WlRequest)
    ensures r in DestroyRequests(wls) <==> r.DestroyBuffer? && Some(r.wl) in wls
  {
    if wls != [] {
      var init := wls[..|wls| - 1];
      DestroyRequestsExact(init, r);
      assert wls == init + [wls[|wls| - 1]];
    }
  }

  /** Every field of a buffer apart from its busy state and its descriptor array. */
  datatype BufferView = BufferView(
    wl: Option<nat>, handle: Option<nat>, width: int, height: int, format: int, usage: bv64,
    stride: int, numFds: int, metaFd: int, closed: seq<int>)

  ghost function View(b: WindowBuffer): BufferView
    reads b
  {
    BufferView(b.wl, b.handle, b.width, b.height, b.format, b.usage, b.stride,
               b.numFds, b.metaFd, b.closed)
  }

  /** A released buffer's view: no handle, no wl_buffer and no descriptor. */
  predicate Unbound(v: BufferView)
  {
    v.handle == None && v.wl == None && v.numFds == 0 && v.metaFd == -1
  }

  /** The outcomes of the platform calls one buffer's reallocation makes: gralloc's
      allocation, the duplicated descriptors, the memory file and whether writing it
      succeeded, whether the dma-buf parameters object was created and the wl_buffer
      created from it, if any. */
  datatype Allocation = Allocation(
    gralloc: Option<GrallocBuffer>, dups: seq<int>, memfd: int, metaWritten: bool,
    paramsOk: bool, created: Option<nat>)

  predicate Feasible(a: Allocation)
  {
    && a.memfd >= -1
    && (a.gralloc.Some? ==> |a.dups| >= CachedCount(|a.gralloc.value.fds|))
  }

  /** The descriptors a buffer's release closes: its open cached descriptors in slot
      order, then its metadata file. */
  function Closes(v: BufferView, cached: seq<int>): seq<int>
    requires 0 <= v.numFds <= |cached|
  {
    OpenFds(cached[..v.numFds]) + (if v.metaFd >= 0 then [v.metaFd] else [])
  }

  /** A buffer after release: no wl_buffer, handle or descriptor, the descriptors it
      held closed, its geometry kept. */
  function ReleasedView(v: BufferView, cached: seq<int>): (r: BufferView)
    requires 0 <= v.numFds <= |cached|
    ensures Unbound(r)
  {
    v.(wl := None, handle := None, numFds := 0, metaFd := -1, closed := v.closed + Closes(v, cached))
  }

  /** The descriptor slots after release: the open ones among the first `n` hold -1. */
  function ResetFds(cached: seq<int>, n: int): (r: seq<int>)
    ensures |r| == |cached|
  {
    seq(|cached|, i requires 0 <= i < |cached| => if i < n && cached[i] >= 0 then -1 else cached[i])
  }

  /** Release leaks nothing: each open cached descriptor and an open metadata file are
      closed, and nothing else is. */
  lemma ReleaseClosesHeld(v: BufferView, cached: seq<int>)
    requires 0 <= v.numFds <= |cached|
    ensures var r := ReleasedView(v, cached);
      && r.closed[..|v.closed|] == v.closed
      && (forall k :: 0 <= k < v.numFds && cached[k] >= 0 ==> cached[k] in r.closed[|v.closed|..])
      && (v.metaFd >= 0 ==> v.metaFd in r.closed[|v.closed|..])
      && (forall fd :: fd in r.closed[|v.closed|..] ==>
            fd >= 0 && (fd == v.metaFd || fd in cached[..v.numFds]))
  {
    var r := ReleasedView(v, cached);
    var shut := Closes(v, cached);
    assert r.closed[|v.closed|..] == shut;
    forall k | 0 <= k < v.numFds && cached[k] >= 0
      ensures cached[k] in shut
    {
      OpenFdsHas(cached[..v.numFds], k);
    }
  }

  /** The descriptors an allocation caches: duplicates of gralloc's first four. */
  function CachedOf(a: Allocation): (fds: seq<int>)
    requires Feasible(a)
    ensures |fds| <= MaxCachedFds
  {
    if a.gralloc.Some? then a.dups[..CachedCount(|a.gralloc.value.fds|)] else []
  }

  /** The metadata file an allocation leaves in a released buffer: the memory file when
      the handle carries integers and the file was created and written, else -1. */
  function MetaOf(a: Allocation): (fd: int)
    requires Feasible(a)
    ensures fd >= -1
  {
    if a.gralloc.Some? && a.gralloc.value.numInts > 0 && a.memfd >= 0 && a.metaWritten then a.memfd
    else -1
  }

  /** The memory file an allocation closes again: one it could not write. */
  function MetaClosed(a: Allocation): seq<int>
  {
    if a.gralloc.Some? && a.gralloc.value.numInts > 0 && a.memfd >= 0 && !a.metaWritten then [a.memfd]
    else []
  }

  /** The stride gralloc reports, or 0 when there is no allocation and so no plane. */
  function StrideOf(a: Allocation): int
  {
    if a.gralloc.Some? then a.gralloc.value.stride else 0
  }

  /** The requests createWlBuffer sends for a buffer just allocated by `a`. */
  function AllocRequests(a: Allocation, w: int, h: int): seq<WlRequest>
    requires Feasible(a)
  {
    if a.paramsOk then ParamsRequests(CachedOf(a), MetaOf(a), StrideOf(a), w, h) else []
  }

  /** The requests of allocating buffers by `allocs`, one after the other. */
  function AllocLog(allocs: seq<Allocation>, w: int, h: int): seq<WlRequest>
    requires forall i :: 0 <= i < |allocs| ==> Feasible(allocs[i])
  {
    if allocs == [] then []
    else AllocLog(allocs[..|allocs| - 1], w, h) + AllocRequests(allocs[|allocs| - 1], w, h)
  }

  /** One more allocation appends its own requests. */
  lemma AllocLogStep(allocs: seq<Allocation>, i: nat, w: int, h: int)
    requires i < |allocs| && forall j :: 0 <= j < |allocs| ==> Feasible(allocs[j])
    ensures AllocLog(allocs[..i + 1], w, h) == AllocLog(allocs[..i], w, h) + AllocRequests(allocs[i], w, h)
  {
    assert allocs[..i + 1][..i] == allocs[..i];
  }

  /** One allocation's requests: its planes carry its cached duplicates or its metadata
      file, and the rest open and close a parameters object around a `w` x `h`
      ARGB8888 creation. */
  lemma AllocRequestsShape(a: Allocation, w: int, h: int)
    requires Feasible(a)
    ensures forall r :: r in AllocRequests(a, w, h) ==>
      && (r.AddPlane? ==> r.fd in CachedOf(a) || r.fd == MetaOf(a))
      && (r.AddPlane? || r == CreateImmed(w, h, DrmFormatArgb8888) || r == CreateParams || r == DestroyParams)
  {
    if a.paramsOk {
      var fds, meta := CachedOf(a), MetaOf(a);
      var reqs := ParamsRequests(fds, meta, StrideOf(a), w, h);
      forall r | r in reqs
        ensures r.AddPlane? ==> r.fd in fds || r.fd == meta
        ensures r.AddPlane? || r == CreateImmed(w, h, DrmFormatArgb8888) || r == CreateParams || r == DestroyParams
      {
        var k :| 0 <= k < |reqs| && reqs[k] == r;
        if k == 0 {
        } else if k <= |fds| {
          assert r == AddPlane(fds[k - 1], k - 1, StrideOf(a) * 4);
        } else if k < |reqs| - 2 {
          assert meta >= 0 && k == 1 + |fds|;
        }
      }
    }
  }

  /** The window hands the compositor only descriptors it holds and asks only for
      wl_buffers of the window's size: every plane of a reallocation's log is a cached
      duplicate or the metadata file of one of the allocations, every creation is a
      `w` x `h` ARGB8888 buffer, and nothing else is sent but the creation and
      destruction of parameters objects. */
  lemma {:induction false} AllocLogPlanes(allocs: seq<Allocation>, w: int, h: int)
    requires forall i :: 0 <= i < |allocs| ==> Feasible(allocs[i])
    ensures forall r :: r in AllocLog(allocs, w, h) && r.AddPlane? ==>
      exists i :: 0 <= i < |allocs| && (r.fd in CachedOf(allocs[i]) || r.fd == MetaOf(allocs[i]))
    ensures forall r :: r in AllocLog(allocs, w, h) ==>
      r.AddPlane? || r == CreateImmed(w, h, DrmFormatArgb8888) || r == CreateParams || r == DestroyParams
    decreases |allocs|
  {
    if allocs != [] {
      var n := |allocs| - 1;
      var init := allocs[..n];
      AllocLogPlanes(init, w, h);
      var a := allocs[n];
      var last := AllocRequests(a, w, h);
      AllocRequestsShape(a, w, h);
      forall r | r in AllocLog(allocs, w, h) && r.AddPlane?
        ensures exists i :: 0 <= i < |allocs| && (r.fd in CachedOf(allocs[i]) || r.fd == MetaOf(allocs[i]))
      {
        if r in AllocLog(init, w, h) {
          var i :| 0 <= i < |init| && (r.fd in CachedOf(init[i]) || r.fd == MetaOf(init[i]));
          assert init[i] == allocs[i];
        } else {
          assert r in last;
        }
      }
    }
  }

  /** What reallocation leaves in one buffer, apart from its busy state and the
      descriptors it closed: the window's geometry, format and usage, gralloc's handle
      and stride, the cached duplicates, the metadata file and the wl_buffer created. */
  predicate Holds(v: BufferView, cached: seq<int>, w: int, h: int, fmt: int, usg: bv64, a: Allocation)
  {
    && Feasible(a)
    && v.width == w && v.height == h && v.format == fmt && v.usage == usg
    && v.handle == (if a.gralloc.Some? then Some(a.gralloc.value.handle) else None)
    && v.numFds == |CachedOf(a)| && v.numFds <= |cached| && cached[..v.numFds] == CachedOf(a)
    && (a.gralloc.Some? ==> v.stride == a.gralloc.value.stride)
    && v.metaFd == MetaOf(a)
    && v.wl == (if a.paramsOk then a.created else None)
  }

  /** The empty buffer a window starts with. */
  const EmptyView := BufferView(None, None, 0, 0, 0, 0, 0, 0, -1, [])

  /** A buffer's view after allocate() and createWlBuffer() with the outcomes `a`: the
      geometry recorded; when gralloc answered, its handle, stride and descriptor count;
      the memory file kept when written, closed when not; and the wl_buffer created. */
  function AllocatedView(v: BufferView, a: Allocation, w: int, h: int, fmt: int, usg: bv64): BufferView
    requires Feasible(a)
  {
    var g := a.gralloc;
    BufferView(
      if a.paramsOk && a.created.Some? then a.created else v.wl,
      if g.Some? then Some(g.value.handle) else None,
      w, h, fmt, usg,
      if g.Some? then g.value.stride else v.stride,
      if g.Some? then |CachedOf(a)| else v.numFds,
      if g.None? || g.value.numInts == 0 then v.metaFd
      else if a.memfd >= 0 && !a.metaWritten then -1
      else a.memfd,
      v.closed + MetaClosed(a))
  }

  /** The descriptor slots after allocate(): the cached duplicates first, the rest kept. */
  function AllocatedFds(cached: seq<int>, a: Allocation): (r: seq<int>)
    requires Feasible(a) && MaxCachedFds <= |cached|
    ensures |r| == |cached|
  {
    CachedOf(a) + cached[|CachedOf(a)|..]
  }

  /** Allocating a released buffer leaves it holding exactly what the allocation gave. */
  lemma AllocatedHolds(v: BufferView, cached: seq<int>, a: Allocation, w: int, h: int, fmt: int, usg: bv64)
    requires Unbound(v) && Feasible(a) && |cached| == MaxCachedFds
    ensures Holds(AllocatedView(v, a, w, h, fmt, usg), AllocatedFds(cached, a), w, h, fmt, usg, a)
  {
    var fds := CachedOf(a);
    assert AllocatedFds(cached, a)[..|fds|] == fds;
  }

  /** The views and descriptor arrays of the four buffers, each count within its array. */
  predicate Slots(vs: seq<BufferView>, cs: seq<seq<int>>)
  {
    && |vs| == MaxBuffers && |cs| == MaxBuffers
    && forall j :: 0 <= j < MaxBuffers ==> 0 <= vs[j].numFds <= |cs[j]| && |cs[j]| == MaxCachedFds
  }

  /** The views once the first `n` buffers are released. */
  function ReleasedViews(vs: seq<BufferView>, cs: seq<seq<int>>, n: int): (r: seq<BufferView>)
    requires Slots(vs, cs)
    ensures |r| == MaxBuffers
  {
    seq(MaxBuffers, j requires 0 <= j < MaxBuffers => if j < n then ReleasedView(vs[j], cs[j]) else vs[j])
  }

  /** The descriptor arrays once the first `n` buffers are released. */
  function ResetSlots(vs: seq<BufferView>, cs: seq<seq<int>>, n: int): (r: seq<seq<int>>)
    requires Slots(vs, cs)
    ensures Slots(ReleasedViews(vs, cs, n), r)
  {
    seq(MaxBuffers, j requires 0 <= j < MaxBuffers => if j < n then ResetFds(cs[j], vs[j].numFds) else cs[j])
  }

  /** The busy states once the first `n` buffers are released. */
  function FreedStates(bs: seq<int>, n: int): (r: seq<int>)
    ensures |r| == |bs|
  {
    seq(|bs|, j requires 0 <= j < |bs| => if j < n then Free else bs[j])
  }

  /** The views once the first `n` buffers are allocated by `allocs`. */
  function AllocatedViews(vs: seq<BufferView>, n: int, allocs: seq<Allocation>,
                          w: int, h: int, fmt: int, usg: bv64): (r: seq<BufferView>)
    requires |vs| == MaxBuffers && n <= |allocs|
    requires forall j :: 0 <= j < |allocs| ==> Feasible(allocs[j])
    ensures |r| == MaxBuffers
  {
    seq(MaxBuffers, j requires 0 <= j < MaxBuffers =>
      if j < n then AllocatedView(vs[j], allocs[j], w, h, fmt, usg) else vs[j])
  }

  /** The descriptor arrays once the first `n` buffers are allocated by `allocs`. */
  function AllocatedSlots(cs: seq<seq<int>>, n: int, allocs: seq<Allocation>): (r: seq<seq<int>>)
    requires |cs| == MaxBuffers && n <= |allocs|
    requires forall j :: 0 <= j < MaxBuffers ==> |cs[j]| == MaxCachedFds
    requires forall j :: 0 <= j < |allocs| ==> Feasible(allocs[j])
    ensures |r| == MaxBuffers && forall j :: 0 <= j < MaxBuffers ==> |r[j]| == MaxCachedFds
  {
    seq(MaxBuffers, j requires 0 <= j < MaxBuffers => if j < n then AllocatedFds(cs[j], allocs[j]) else cs[j])
  }

  /** reallocateBuffers' rebuild on the views: every buffer released, then the first
      `count` allocated by `allocs`. */
  function RebuiltViews(vs: seq<BufferView>, cs: seq<seq<int>>, count: int, allocs: seq<Allocation>,
                        w: int, h: int, fmt: int, usg: bv64): seq<BufferView>
    requires Slots(vs, cs) && count <= |allocs|
    requires forall j :: 0 <= j < |allocs| ==> Feasible(allocs[j])
  {
    AllocatedViews(ReleasedViews(vs, cs, MaxBuffers), count, allocs, w, h, fmt, usg)
  }

  /** reallocateBuffers' rebuild on the descriptor arrays. */
  function RebuiltSlots(vs: seq<BufferView>, cs: seq<seq<int>>, count: int, allocs: seq<Allocation>): seq<seq<int>>
    requires Slots(vs, cs) && count <= |allocs|
    requires forall j :: 0 <= j < |allocs| ==> Feasible(allocs[j])
  {
    AllocatedSlots(ResetSlots(vs, cs, MaxBuffers), count, allocs)
  }

  /** After a rebuild the first `count` buffers hold what their allocations gave, having
      closed everything they held before and any memory file allocation could not
      write; the others are released. */
  lemma RebuiltHolds(vs: seq<BufferView>, cs: seq<seq<int>>, count: int, allocs: seq<Allocation>,
                     w: int, h: int, fmt: int, usg: bv64)
    requires Slots(vs, cs) && count <= |allocs|
    requires forall j :: 0 <= j < |allocs| ==> Feasible(allocs[j])
    ensures var va := RebuiltViews(vs, cs, count, allocs, w, h, fmt, usg);
      var ca := RebuiltSlots(vs, cs, count, allocs);
      forall i :: 0 <= i < MaxBuffers ==>
        && (i < count ==>
              && Holds(va[i], ca[i], w, h, fmt, usg, allocs[i])
              && va[i].closed == ReleasedView(vs[i], cs[i]).closed + MetaClosed(allocs[i]))
        && (i >= count ==> va[i] == ReleasedView(vs[i], cs[i]) && ca[i] == ResetFds(cs[i], vs[i].numFds))
  {
    forall i | 0 <= i < MaxBuffers && i < count
      ensures Holds(RebuiltViews(vs, cs, count, allocs, w, h, fmt, usg)[i],
                    RebuiltSlots(vs, cs, count, allocs)[i], w, h, fmt, usg, allocs[i])
    {
      AllocatedHolds(ReleasedView(vs[i], cs[i]), ResetFds(cs[i], vs[i].numFds), allocs[i], w, h, fmt, usg);
    }
  }

  /** The start of destroyBuffers' loop: nothing released yet. */
  lemma ReleaseFirst(vs: seq<BufferView>, cs: seq<seq<int>>, bs: seq<int>, wls: seq<Option<nat>>, log: seq<WlRequest>)
    requires Slots(vs, cs)
    ensures ReleasedViews(vs, cs, 0) == vs && ResetSlots(vs, cs, 0) == cs && FreedStates(bs, 0) == bs
    ensures log + DestroyRequests(wls[..0]) == log
  {
    assert wls[..0] == [];
  }

  /** One turn of destroyBuffers' loop: releasing buffer `n` extends the released prefix. */
  lemma ReleaseNext(vs: seq<BufferView>, cs: seq<seq<int>>, bs: seq<int>, wls: seq<Option<nat>>,
                    n: nat, log: seq<WlRequest>)
    requires Slots(vs, cs) && n < MaxBuffers && |bs| == MaxBuffers && |wls| == MaxBuffers
    requires wls[n] == vs[n].wl
    ensures ReleasedViews(vs, cs, n)[n] == vs[n] && ResetSlots(vs, cs, n)[n] == cs[n]
    ensures ReleasedViews(vs, cs, n)[n := ReleasedView(vs[n], cs[n])] == ReleasedViews(vs, cs, n + 1)
    ensures ResetSlots(vs, cs, n)[n := ResetFds(cs[n], vs[n].numFds)] == ResetSlots(vs, cs, n + 1)
    ensures FreedStates(bs, n)[n := Free] == FreedStates(bs, n + 1)
    ensures log + DestroyRequests(wls[..n]) + (if vs[n].wl.Some? then [DestroyBuffer(vs[n].wl.value)] else [])
            == log + DestroyRequests(wls[..n + 1])
  {
    DestroyRequestsStep(wls, n);
  }

  /** The end of destroyBuffers' loop: every buffer released. */
  lemma ReleaseLast(bs: seq<int>, wls: seq<Option<nat>>)
    requires |bs| == MaxBuffers && |wls| == MaxBuffers
    ensures FreedStates(bs, MaxBuffers) == [Free, Free, Free, Free]
    ensures wls[..MaxBuffers] == wls
  {
  }

  /** The start of reallocateBuffers' allocation loop: nothing allocated yet. */
  lemma AllocateFirst(vs: seq<BufferView>, cs: seq<seq<int>>, allocs: seq<Allocation>,
                      w: int, h: int, fmt: int, usg: bv64, log: seq<WlRequest>)
    requires |vs| == MaxBuffers && |cs| == MaxBuffers
    requires forall j :: 0 <= j < MaxBuffers ==> |cs[j]| == MaxCachedFds
    requires forall j :: 0 <= j < |allocs| ==> Feasible(allocs[j])
    ensures AllocatedViews(vs, 0, allocs, w, h, fmt, usg) == vs && AllocatedSlots(cs, 0, allocs) == cs
    ensures log + AllocLog(allocs[..0], w, h) == log
  {
    assert allocs[..0] == [];
  }

  /** One turn of the allocation loop: allocating buffer `n` extends the allocated prefix. */
  lemma AllocateNext(vs: seq<BufferView>, cs: seq<seq<int>>, n: nat, allocs: seq<Allocation>,
                     w: int, h: int, fmt: int, usg: bv64, log: seq<WlRequest>)
    requires |vs| == MaxBuffers && |cs| == MaxBuffers && n < MaxBuffers && n < |allocs|
    requires forall j :: 0 <= j < MaxBuffers ==> |cs[j]| == MaxCachedFds
    requires forall j :: 0 <= j < |allocs| ==> Feasible(allocs[j])
    ensures AllocatedViews(vs, n, allocs, w, h, fmt, usg)[n] == vs[n]
    ensures AllocatedSlots(cs, n, allocs)[n] == cs[n]
    ensures AllocatedViews(vs, n, allocs, w, h, fmt, usg)[n := AllocatedView(vs[n], allocs[n], w, h, fmt, usg)]
            == AllocatedViews(vs, n + 1, allocs, w, h, fmt, usg)
    ensures AllocatedSlots(cs, n, allocs)[n := AllocatedFds(cs[n], allocs[n])] == AllocatedSlots(cs, n + 1, allocs)
    ensures [Free, Free, Free, Free][n := Free] == [Free, Free, Free, Free]
    ensures log + AllocLog(allocs[..n], w, h) + AllocRequests(allocs[n], w, h) == log + AllocLog(allocs[..n + 1], w, h)
  {
    var va := AllocatedViews(vs, n, allocs, w, h, fmt, usg);
    var vb := AllocatedViews(vs, n + 1, allocs, w, h, fmt, usg);
    forall j | 0 <= j < MaxBuffers
      ensures va[n := AllocatedView(vs[n], allocs[n], w, h, fmt, usg)][j] == vb[j]
    {
    }
    var ca := AllocatedSlots(cs, n, allocs);
    var cb := AllocatedSlots(cs, n + 1, allocs);
    forall j | 0 <= j < MaxBuffers
      ensures ca[n := AllocatedFds(cs[n], allocs[n])][j] == cb[j]
    {
    }
    AllocLogStep(allocs, n, w, h);
  }

  /** Rebuilding the four empty buffers of a new window requests no destruction, and
      leaves the first three holding what their allocations gave. */
  lemma RebuiltFromEmpty(vs: seq<BufferView>, cs: seq<seq<int>>, wls: seq<Option<nat>>, count: int,
                         fmt: int, usg: bv64, allocs: seq<Allocation>, w: int, h: int,
                         va: seq<BufferView>, ca: seq<seq<int>>, log: seq<WlRequest>)
    requires vs == [EmptyView, EmptyView, EmptyView, EmptyView] && wls == [None, None, None, None]
    requires count == DefaultBufferCount && fmt == HalPixelFormatRgba8888 && usg == WindowUsage
    requires Slots(vs, cs) && count <= |allocs|
    requires forall j :: 0 <= j < |allocs| ==> Feasible(allocs[j])
    requires va == RebuiltViews(vs, cs, count, allocs, w, h, fmt, usg)
    requires ca == RebuiltSlots(vs, cs, count, allocs)
    requires log == [] + DestroyRequests(wls) + AllocLog(allocs[..count], w, h)
    ensures va == AllocatedViews([EmptyView, EmptyView, EmptyView, EmptyView], DefaultBufferCount,
                                 allocs, w, h, HalPixelFormatRgba8888, WindowUsage)
    ensures forall i :: 0 <= i < DefaultBufferCount ==>
      Holds(va[i], ca[i], w, h, HalPixelFormatRgba8888, WindowUsage, allocs[i])
    ensures log == AllocLog(allocs[..DefaultBufferCount], w, h)
  {
    NothingToDestroy(wls);
    ReleaseEmpty(cs);
    RebuiltHolds(vs, cs, count, allocs, w, h, fmt, usg);
  }

  /** Four buffers without wl_buffers need no destruction requests. */
  lemma NothingToDestroy(wls: seq<Option<nat>>)
    requires wls == [None, None, None, None]
    ensures DestroyRequests(wls) == []
  {
    DestroyRequestsStep(wls, 0);
    DestroyRequestsStep(wls, 1);
    DestroyRequestsStep(wls, 2);
    DestroyRequestsStep(wls, 3);
    assert wls[..MaxBuffers] == wls;
  }

  /** Releasing buffers that were never allocated changes no view. */
  lemma ReleaseEmpty(cs: seq<seq<int>>)
    requires Slots([EmptyView, EmptyView, EmptyView, EmptyView], cs)
    ensures ReleasedViews([EmptyView, EmptyView, EmptyView, EmptyView], cs, MaxBuffers)
            == [EmptyView, EmptyView, EmptyView, EmptyView]
  {
    var es := [EmptyView, EmptyView, EmptyView, EmptyView];
    forall j | 0 <= j < MaxBuffers
      ensures ReleasedView(es[j], cs[j]) == EmptyView
    {
      assert cs[j][..0] == [];
    }
  }

  /** The four empty buffers a window starts with, each with its own descriptor array. */
  method NewBuffers() returns (bs: seq<WindowBuffer>)
    ensures |bs| == MaxBuffers
    ensures forall j :: 0 <= j < MaxBuffers ==>
      fresh(bs[j]) && fresh(bs[j].cachedFds) && bs[j].Valid() && bs[j].busy == Free && View(bs[j]) == EmptyView
    ensures forall i, j :: 0 <= i < j < MaxBuffers ==> bs[i] != bs[j] && bs[i].cachedFds != bs[j].cachedFds
  {
    var b0 := new WindowBuffer();
    var b1 := new WindowBuffer();
    var b2 := new WindowBuffer();
    var b3 := new WindowBuffer();
    bs := [b0, b1, b2, b3];
  }

  datatype DequeueOutcome =
    | Ready(index: nat, fenceFd: int)
    | DispatchFailed        // the Wayland dispatch failed while every buffer was busy
    | MustWait              // every buffer is busy: the window waits for a release

  class NativeWindow {
    const buffers: seq<WindowBuffer>    // m_buffers
    var bufferCount: int
    var allocateBuffers: bool
    var usage: bv64
    var format: int
    var damage: seq<Rect>               // the damage rectangles of the coming swap
    var queued: Option<nat>             // index of m_queuedBuffer
    var attachedHeight: int
    var swapInterval: int
    var requests: seq<WlRequest>        // Wayland requests sent, in order
    var closedFences: seq<int>          // fence descriptors closed, in order

    ghost const Repr: set<object>       // the buffers and their descriptor arrays

    /** Four buffers, each with its own descriptor array. */
    ghost predicate Distinct()
    {
      && |buffers| == MaxBuffers
      && Repr == {buffers[0], buffers[1], buffers[2], buffers[3],
                  buffers[0].cachedFds, buffers[1].cachedFds, buffers[2].cachedFds, buffers[3].cachedFds}
      && (forall i :: 0 <= i < MaxBuffers ==>
            buffers[i].Valid() && buffers[i] in Repr && buffers[i].cachedFds in Repr)
      && (forall i, j :: 0 <= i < j < MaxBuffers ==> buffers[i] != buffers[j])
      && (forall i, j :: 0 <= i < j < MaxBuffers ==> buffers[i].cachedFds != buffers[j].cachedFds)
    }

    /** The count is at most four, the queued buffer is one of the four and the usage
        always holds render and texture. */
    ghost predicate Valid()
      reads this`bufferCount, this`queued, this`usage
    {
      && Distinct()
      && bufferCount <= MaxBuffers
      && (queued.Some? ==> queued.value < MaxBuffers)
      && usage & WindowUsage == WindowUsage
    }

    /** The states of the four buffers. */
    function BusyStates(): (s: seq<int>)
      requires |buffers| == MaxBuffers
      reads buffers
    {
      [buffers[0].busy, buffers[1].busy, buffers[2].busy, buffers[3].busy]
    }

    /** The wl_buffers of the four buffers. */
    function WlBuffers(): (s: seq<Option<nat>>)
      requires |buffers| == MaxBuffers
      reads buffers
    {
      [buffers[0].wl, buffers[1].wl, buffers[2].wl, buffers[3].wl]
    }

    /** The views of the four buffers. */
    ghost function Views(): (vs: seq<BufferView>)
      requires |buffers| == MaxBuffers
      reads buffers
      ensures |vs| == MaxBuffers && forall j :: 0 <= j < MaxBuffers ==> 0 <= vs[j].numFds <= MaxCachedFds
    {
      [View(buffers[0]), View(buffers[1]), View(buffers[2]), View(buffers[3])]
    }

    /** The descriptor slots of the four buffers. */
    ghost function Cached(): (cs: seq<seq<int>>)
      requires Distinct()
      ensures |cs| == MaxBuffers && forall j :: 0 <= j < MaxBuffers ==> |cs[j]| == MaxCachedFds
      reads buffers[0].cachedFds, buffers[1].cachedFds, buffers[2].cachedFds, buffers[3].cachedFds
    {
      [buffers[0].cachedFds[..], buffers[1].cachedFds[..], buffers[2].cachedFds[..], buffers[3].cachedFds[..]]
    }

    /** The reallocation skip test: the first buffer already holds a handle with the
        window's size, the requested format and the requested usage. */
    predicate CanReuse(w: int, h: int)
      requires |buffers| == MaxBuffers
      reads this, buffers[0]
    {
      && bufferCount > 0 && buffers[0].handle.Some?
      && buffers[0].width == w && buffers[0].height == h
      && buffers[0].format == format && buffers[0].usage == usage
    }

    /** The window starts with three RGBA_8888 buffers for rendering and texturing, a
        swap interval of one, and allocates them at once; the fourth buffer stays empty
        and nothing has been closed but the memory files allocation could not write. */
    constructor (w: int, h: int, allocs: seq<Allocation>)
      requires |allocs| >= DefaultBufferCount
      requires forall i :: 0 <= i < |allocs| ==> Feasible(allocs[i])
      ensures Valid() && fresh(Repr)
      ensures bufferCount == DefaultBufferCount && format == HalPixelFormatRgba8888
      ensures usage == WindowUsage && swapInterval == 1 && !allocateBuffers
      ensures queued == None && damage == [] && attachedHeight == 0 && closedFences == []
      ensures BusyStates() == [Free, Free, Free, Free]
      ensures Views() == AllocatedViews([EmptyView, EmptyView, EmptyView, EmptyView], DefaultBufferCount,
                                        allocs, w, h, HalPixelFormatRgba8888, WindowUsage)
      ensures forall i :: 0 <= i < DefaultBufferCount ==>
        Holds(Views()[i], Cached()[i], w, h, HalPixelFormatRgba8888, WindowUsage, allocs[i])
      ensures requests == AllocLog(allocs[..DefaultBufferCount], w, h)
    {
      var bs := NewBuffers();
      buffers := bs;
      Repr := {bs[0], bs[1], bs[2], bs[3], bs[0].cachedFds, bs[1].cachedFds, bs[2].cachedFds, bs[3].cachedFds};
      bufferCount, allocateBuffers := DefaultBufferCount, true;
      format, usage := HalPixelFormatRgba8888, WindowUsage;
      damage, queued, attachedHeight, swapInterval := [], None, 0, 1;
      requests, closedFences := [], [];
      new;
      assert fresh(Repr) && this !in Repr;
      FirstAllocation(w, h, allocs);
    }

    /** The reallocation the constructor ends with, over four empty buffers: the first
        three are allocated and nothing is destroyed. */
    method FirstAllocation(w: int, h: int, allocs: seq<Allocation>)
      requires Valid() && bufferCount == DefaultBufferCount
      requires format == HalPixelFormatRgba8888 && usage == WindowUsage
      requires Views() == [EmptyView, EmptyView, EmptyView, EmptyView] && requests == []
      requires |allocs| >= DefaultBufferCount
      requires forall i :: 0 <= i < |allocs| ==> Feasible(allocs[i])
      modifies this`requests, this`queued, this`allocateBuffers, Repr
      ensures Valid() && !allocateBuffers && queued == None
      ensures unchanged(this`bufferCount, this`format, this`usage, this`swapInterval)
      ensures unchanged(this`damage, this`attachedHeight, this`closedFences)
      ensures BusyStates() == [Free, Free, Free, Free]
      ensures Views() == AllocatedViews([EmptyView, EmptyView, EmptyView, EmptyView], DefaultBufferCount,
                                        allocs, w, h, HalPixelFormatRgba8888, WindowUsage)
      ensures forall i :: 0 <= i < DefaultBufferCount ==>
        Holds(Views()[i], Cached()[i], w, h, HalPixelFormatRgba8888, WindowUsage, allocs[i])
      ensures requests == AllocLog(allocs[..DefaultBufferCount], w, h)
    {
      WlBuffersOfViews();
      ghost var vs, cs, wls := Views(), Cached(), WlBuffers();
      assert this !in Repr;
      Reallocate(w, h, allocs);
      RebuiltFromEmpty(vs, cs, wls, Max0(bufferCount), format, usage, allocs, w, h, Views(), Cached(), requests);
    }

    /** createWlBuffer: without a parameters object nothing is sent; otherwise the
        buffer's planes and metadata are added and a wl_buffer is requested, which the
        buffer keeps when the compositor's side creates it. */
    method CreateWlBuffer(idx: nat, paramsOk: bool, created: Option<nat>)
      requires Valid() && idx < MaxBuffers
      modifies this`requests, (buffers[idx] as WindowBuffer)`wl
      ensures Valid()
      ensures var b := buffers[idx];
        && (!paramsOk ==> requests == old(requests) && b.wl == old(b.wl))
        && (paramsOk ==>
              && requests == old(requests)
                 + ParamsRequests(b.cachedFds[..b.numFds], b.metaFd, b.stride, b.width, b.height)
              && b.wl == (if created.Some? then created else old(b.wl)))
    {
      if !paramsOk {
        return;
      }
      var b := buffers[idx];
      var sent := [CreateParams];
      var i := 0;
      while i < b.numFds
        invariant 0 <= i <= b.numFds
        invariant sent == [CreateParams] + PlaneRequests(b.cachedFds[..i], b.stride)
      {
        assert b.cachedFds[..i + 1] == b.cachedFds[..i] + [b.cachedFds[i]];
        sent := sent + [AddPlane(b.cachedFds[i], i, b.stride * 4)];
        i := i + 1;
      }
      if b.metaFd >= 0 {
        sent := sent + [AddPlane(b.metaFd, b.numFds, 1)];
      }
      sent := sent + [CreateImmed(b.width, b.height, DrmFormatArgb8888), DestroyParams];
      assert sent == ParamsRequests(b.cachedFds[..b.numFds], b.metaFd, b.stride, b.width, b.height);
      requests := requests + sent;
      if created.Some? {
        b.wl := created;
      }
    }

    /** The i-th entry of each of the four-buffer sequences is buffer i's. */
    lemma EntryOf(i: nat)
      requires Distinct() && i < MaxBuffers
      ensures Views()[i] == View(buffers[i]) && Cached()[i] == buffers[i].cachedFds[..]
      ensures BusyStates()[i] == buffers[i].busy && WlBuffers()[i] == buffers[i].wl
    {
    }

    /** destroyBuffers: forgets the queued buffer and releases all four buffers, closing
        the descriptors they held; the Wayland log gains the destruction of their
        wl_buffers. */
    method DestroyBuffers()
      requires Valid()
      modifies this`queued, this`requests, Repr
      ensures Valid()
      ensures queued == None
      ensures BusyStates() == [Free, Free, Free, Free]
      ensures Views() == ReleasedViews(old(Views()), old(Cached()), MaxBuffers)
      ensures Cached() == ResetSlots(old(Views()), old(Cached()), MaxBuffers)
      ensures requests == old(requests) + DestroyRequests(old(WlBuffers()))
    {
      queued := None;
      ghost var vs, cs, bs, wls := Views(), Cached(), BusyStates(), WlBuffers();
      WlBuffersOfViews();
      ReleaseFirst(vs, cs, bs, wls, requests);
      assert this !in Repr;
      var i := 0;
      while i < MaxBuffers
        modifies this`requests, Repr
        invariant 0 <= i <= MaxBuffers
        invariant Distinct()
        invariant Views() == ReleasedViews(vs, cs, i)
        invariant Cached() == ResetSlots(vs, cs, i)
        invariant BusyStates() == FreedStates(bs, i)
        invariant requests == old(requests) + DestroyRequests(wls[..i])
      {
        ReleaseNext(vs, cs, bs, wls, i, old(requests));
        ReleaseAt(i);
        i := i + 1;
      }
      assert i == MaxBuffers;
      ReleaseLast(bs, wls);
    }

    /** Each buffer's wl_buffer is the one its view records. */
    lemma WlBuffersOfViews()
      requires |buffers| == MaxBuffers
      ensures forall j :: 0 <= j < MaxBuffers ==> WlBuffers()[j] == Views()[j].wl
    {
    }

    /** One turn of destroyBuffers: buffer `i` is released, closing what it held, and its
        wl_buffer, if it held one, destroyed; no other buffer changes. */
    method ReleaseAt(i: nat)
      requires Distinct() && i < MaxBuffers
      modifies this`requests, buffers[i], buffers[i].cachedFds
      ensures Views() == old(Views())[i := ReleasedView(old(Views()[i]), old(Cached()[i]))]
      ensures Cached() == old(Cached())[i := ResetFds(old(Cached()[i]), old(Views()[i].numFds))]
      ensures BusyStates() == old(BusyStates())[i := Free]
      ensures requests == old(requests)
        + (if old(Views()[i].wl).Some? then [DestroyBuffer(old(Views()[i].wl).value)] else [])
    {
      EntryOf(i);
      var b := buffers[i];
      ghost var v := View(b);
      ghost var cached := b.cachedFds[..];
      assert cached[..v.numFds] == b.cachedFds[..b.numFds];
      var destroyed, _ := b.Release();
      assert b.cachedFds[..] == ResetFds(cached, v.numFds) by {
        forall k | 0 <= k < MaxCachedFds
          ensures b.cachedFds[k] == ResetFds(cached, v.numFds)[k]
        {
        }
      }
      assert b.closed == v.closed + Closes(v, cached);
      assert View(b) == ReleasedView(v, cached);
      if destroyed.Some? {
        requests := requests + [DestroyBuffer(destroyed.value)];
      }
      OnlyBufferChanged(i);
    }

    /** When only buffer `i` and its descriptor slots have changed, the four-buffer
        sequences change at position `i` alone. */
    twostate lemma OnlyBufferChanged(i: nat)
      requires Distinct() && i < MaxBuffers
      requires forall j :: 0 <= j < MaxBuffers && j != i ==> unchanged(buffers[j], buffers[j].cachedFds)
      ensures Views() == old(Views())[i := View(buffers[i])]
      ensures Cached() == old(Cached())[i := buffers[i].cachedFds[..]]
      ensures BusyStates() == old(BusyStates())[i := buffers[i].busy]
    {
      forall j | 0 <= j < MaxBuffers && j != i
        ensures buffers[j].cachedFds[..] == old(buffers[j].cachedFds[..])
      {
      }
    }

    /** One buffer's turn in reallocateBuffers: allocation with the window's format and
        usage, then a wl_buffer for it; no other buffer changes. */
    method AllocateBuffer(i: nat, w: int, h: int, a: Allocation)
      requires Valid() && i < MaxBuffers && Feasible(a)
      requires Unbound(Views()[i])
      modifies this`requests, buffers[i], buffers[i].cachedFds
      ensures Valid()
      ensures Views() == old(Views())[i := AllocatedView(old(Views()[i]), a, w, h, format, usage)]
      ensures Cached() == old(Cached())[i := AllocatedFds(old(Cached()[i]), a)]
      ensures BusyStates() == old(BusyStates())[i := Free]
      ensures requests == old(requests) + AllocRequests(a, w, h)
    {
      EntryOf(i);
      var b := buffers[i];
      ghost var v := View(b);
      ghost var cached := b.cachedFds[..];
      var _ := b.Allocate(w, h, format, usage, a.gralloc, a.dups, a.memfd, a.metaWritten);
      assert b.cachedFds[..] == AllocatedFds(cached, a) by {
        forall k | 0 <= k < MaxCachedFds
          ensures b.cachedFds[k] == AllocatedFds(cached, a)[k]
        {
          if a.gralloc.Some? && k < |CachedOf(a)| {
            assert b.cachedFds[..b.numFds][k] == b.cachedFds[k];
          }
        }
      }
      CreateWlBuffer(i, a.paramsOk, a.created);
      assert View(b) == AllocatedView(v, a, w, h, format, usage);
      OnlyBufferChanged(i);
    }

    /** What the rebuilding half of reallocateBuffers leaves, against the state before
        it: no queued buffer, every buffer free, every buffer released and the first
        `bufferCount` allocated by `allocs`, and the Wayland log extended by the
        destruction of the old wl_buffers and then the allocations' requests. */
    twostate predicate Rebuilt(w: int, h: int, allocs: seq<Allocation>)
      requires old(Valid()) && Valid() && bufferCount <= |allocs|
      requires forall i :: 0 <= i < |allocs| ==> Feasible(allocs[i])
      reads this, Repr
    {
      && queued == None
      && BusyStates() == [Free, Free, Free, Free]
      && Views() == RebuiltViews(old(Views()), old(Cached()), Max0(bufferCount), allocs, w, h, format, usage)
      && Cached() == RebuiltSlots(old(Views()), old(Cached()), Max0(bufferCount), allocs)
      && requests == old(requests) + DestroyRequests(old(WlBuffers()))
                     + AllocLog(allocs[..Max0(bufferCount)], w, h)
    }

    /** reallocateBuffers: when the first buffer can be reused nothing but the flag
        changes; otherwise every buffer is released and the first `bufferCount` are
        allocated with the window's size and the requested format and usage, each given
        a wl_buffer. The flag is cleared either way. */
    method Reallocate(w: int, h: int, allocs: seq<Allocation>)
      requires Valid()
      requires |allocs| >= bufferCount
      requires forall i :: 0 <= i < |allocs| ==> Feasible(allocs[i])
      modifies this`requests, this`queued, this`allocateBuffers, Repr
      ensures Valid() && !allocateBuffers
      ensures unchanged(this`bufferCount, this`format, this`usage, this`swapInterval)
      ensures unchanged(this`damage, this`attachedHeight, this`closedFences)
      ensures old(CanReuse(w, h)) ==>
        && requests == old(requests) && queued == old(queued)
        && unchanged(Repr)
        && BusyStates() == old(BusyStates()) && Views() == old(Views()) && Cached() == old(Cached())
      ensures !old(CanReuse(w, h)) ==> Rebuilt(w, h, allocs)
    {
      if CanReuse(w, h) {
        allocateBuffers := false;
      } else {
        assert this !in Repr;
        Rebuild(w, h, allocs);
      }
    }

    /** The rebuilding half of reallocateBuffers: every buffer released, then the first
        `bufferCount` allocated, and the flag cleared. */
    method Rebuild(w: int, h: int, allocs: seq<Allocation>)
      requires Valid()
      requires |allocs| >= bufferCount
      requires forall i :: 0 <= i < |allocs| ==> Feasible(allocs[i])
      modifies this`requests, this`queued, this`allocateBuffers, Repr
      ensures Valid() && !allocateBuffers && Rebuilt(w, h, allocs)
    {
      DestroyBuffers();
      AllocateAll(w, h, allocs);
      allocateBuffers := false;
    }

    /** The allocation loop of reallocateBuffers, over released buffers. */
    method AllocateAll(w: int, h: int, allocs: seq<Allocation>)
      requires Valid()
      requires |allocs| >= bufferCount
      requires forall i :: 0 <= i < |allocs| ==> Feasible(allocs[i])
      requires forall i :: 0 <= i < MaxBuffers ==> Unbound(Views()[i])
      requires BusyStates() == [Free, Free, Free, Free]
      modifies this`requests, Repr
      ensures Valid()
      ensures BusyStates() == [Free, Free, Free, Free]
      ensures Views() == AllocatedViews(old(Views()), Max0(bufferCount), allocs, w, h, format, usage)
      ensures Cached() == AllocatedSlots(old(Cached()), Max0(bufferCount), allocs)
      ensures requests == old(requests) + AllocLog(allocs[..Max0(bufferCount)], w, h)
    {
      ghost var vs, cs := Views(), Cached();
      AllocateFirst(vs, cs, allocs, w, h, format, usage, requests);
      assert this !in Repr;
      var i := 0;
      while i < bufferCount
        invariant 0 <= i <= Max0(bufferCount) && i <= MaxBuffers
        invariant Valid()
        invariant BusyStates() == [Free, Free, Free, Free]
        invariant Views() == AllocatedViews(vs, i, allocs, w, h, format, usage)
        invariant Cached() == AllocatedSlots(cs, i, allocs)
        invariant requests == old(requests) + AllocLog(allocs[..i], w, h)
      {
        AllocateNext(vs, cs, i, allocs, w, h, format, usage, old(requests));
        AllocateBuffer(i, w, h, allocs[i]);
        i := i + 1;
      }
      assert i == Max0(bufferCount);
    }

    /** The lowest-index free buffer among the first `bufferCount`, if any. */
    method FindFree() returns (idx: Option<nat>)
      requires Valid()
      ensures idx.Some? ==>
        && idx.value < bufferCount && idx.value < MaxBuffers && buffers[idx.value].busy == Free
        && forall j :: 0 <= j < idx.value ==> buffers[j].busy != Free
      ensures idx.None? ==> forall j :: 0 <= j < bufferCount ==> buffers[j].busy != Free
    {
      var i := 0;
      while i < bufferCount
        invariant 0 <= i <= Min(Max0(bufferCount), MaxBuffers)
        invariant forall j :: 0 <= j < i ==> buffers[j].busy != Free
      {
        if buffers[i].busy == Free {
          return Some(i);
        }
        i := i + 1;
      }
      return None;
    }

    /** dequeueBuffer: reallocates first when a change asked for it, then hands out the
        lowest-index free buffer, marked dequeued, with no fence. When every buffer is
        busy the window flushes and dispatches Wayland events; a failed dispatch fails
        the call, otherwise the window waits for a release. */
    method DequeueBuffer(w: int, h: int, allocs: seq<Allocation>, dispatchFails: bool)
      returns (outcome: DequeueOutcome)
      requires Valid()
      requires allocateBuffers ==> |allocs| >= bufferCount
      requires allocateBuffers ==> forall i :: 0 <= i < |allocs| ==> Feasible(allocs[i])
      modifies this`requests, this`queued, this`allocateBuffers, Repr
      ensures Valid() && !allocateBuffers
      ensures unchanged(this`bufferCount, this`format, this`usage, this`swapInterval)
      ensures unchanged(this`damage, this`attachedHeight, this`closedFences)
      ensures outcome.Ready? ==>
        && outcome.index < bufferCount && outcome.index < MaxBuffers && outcome.fenceFd == -1
        && buffers[outcome.index].busy == Dequeued
        && forall j :: 0 <= j < outcome.index ==> buffers[j].busy != Free
      ensures !outcome.Ready? ==>
        && (forall j :: 0 <= j < bufferCount ==> buffers[j].busy != Free)
        && (outcome == if dispatchFails then DispatchFailed else MustWait)
      ensures old(!allocateBuffers || CanReuse(w, h)) ==>
        && queued == old(queued) && requests == old(requests)
        && Views() == old(Views()) && Cached() == old(Cached())
        && (outcome.Ready? <==> exists j :: 0 <= j < bufferCount && old(buffers[j].busy) == Free)
        && (outcome.Ready? ==>
              && old(buffers[outcome.index].busy) == Free
              && BusyStates() == old(BusyStates())[outcome.index := Dequeued])
        && (!outcome.Ready? ==> BusyStates() == old(BusyStates()))
      ensures old(allocateBuffers && !CanReuse(w, h)) ==>
        && queued == None
        && requests == old(requests) + DestroyRequests(old(WlBuffers()))
                       + AllocLog(allocs[..Max0(bufferCount)], w, h)
        && Views() == RebuiltViews(old(Views()), old(Cached()), Max0(bufferCount), allocs, w, h, format, usage)
        && Cached() == RebuiltSlots(old(Views()), old(Cached()), Max0(bufferCount), allocs)
        && (outcome.Ready? <==> bufferCount > 0)
        && (outcome.Ready? ==> outcome.index == 0)
        && BusyStates() == (if outcome.Ready? then [Dequeued, Free, Free, Free] else [Free, Free, Free, Free])
    {
      if allocateBuffers {
        Reallocate(w, h, allocs);
      }
      outcome := TakeFree(dispatchFails);
    }

    /** The search in dequeueBuffer: the lowest-index free buffer among the first
        `bufferCount` becomes dequeued; only busy states change. */
    method TakeFree(dispatchFails: bool) returns (outcome: DequeueOutcome)
      requires Valid()
      modifies (buffers[0] as WindowBuffer)`busy, (buffers[1] as WindowBuffer)`busy,
               (buffers[2] as WindowBuffer)`busy, (buffers[3] as WindowBuffer)`busy
      ensures Views() == old(Views()) && Cached() == old(Cached())
      ensures outcome.Ready? ==>
        && outcome.index < bufferCount && outcome.index < MaxBuffers && outcome.fenceFd == -1
        && buffers[outcome.index].busy == Dequeued && old(buffers[outcome.index].busy) == Free
        && BusyStates() == old(BusyStates())[outcome.index := Dequeued]
        && forall j :: 0 <= j < outcome.index ==> buffers[j].busy != Free
      ensures !outcome.Ready? ==>
        && (forall j :: 0 <= j < bufferCount ==> buffers[j].busy != Free)
        && BusyStates() == old(BusyStates())
        && (outcome == if dispatchFails then DispatchFailed else MustWait)
      ensures outcome.Ready? <==> exists j :: 0 <= j < bufferCount && old(buffers[j].busy) == Free
      ensures old(BusyStates()) == [Free, Free, Free, Free] ==>
        && (outcome.Ready? <==> bufferCount > 0)
        && (outcome.Ready? ==> outcome.index == 0)
        && BusyStates() == (if outcome.Ready? then [Dequeued, Free, Free, Free] else [Free, Free, Free, Free])
    {
      var idx := FindFree();
      if idx.None? {
        return if dispatchFails then DispatchFailed else MustWait;
      }
      buffers[idx.value].busy := Dequeued;
      outcome := Ready(idx.value, -1);
    }

    /** queueBuffer: a fence, if any, is closed. A buffer without a wl_buffer gets one
        first. A buffer with a wl_buffer must be dequeued; it becomes queued and is the
        buffer the next swap attaches. A buffer still without one is freed and the call
        fails. */
    method QueueBuffer(idx: nat, fenceFd: int, paramsOk: bool, created: Option<nat>)
      returns (ret: int)
      requires Valid() && idx < MaxBuffers
      requires buffers[idx].wl.Some? || (paramsOk && created.Some?) ==> buffers[idx].busy == Dequeued
      modifies this`closedFences, this`queued, this`requests, (buffers[idx] as WindowBuffer)`busy, (buffers[idx] as WindowBuffer)`wl
      ensures Valid()
      ensures closedFences == old(closedFences) + (if fenceFd >= 0 then [fenceFd] else [])
      ensures old(buffers[idx].wl).Some? ==>
        && ret == 0 && buffers[idx].busy == Queued && queued == Some(idx)
        && buffers[idx].wl == old(buffers[idx].wl) && requests == old(requests)
      ensures old(buffers[idx].wl).None? && paramsOk && created.Some? ==>
        && ret == 0 && buffers[idx].busy == Queued && queued == Some(idx)
        && buffers[idx].wl == created
        && requests == old(requests) + ParamsRequests(
             buffers[idx].cachedFds[..buffers[idx].numFds], buffers[idx].metaFd,
             buffers[idx].stride, buffers[idx].width, buffers[idx].height)
      ensures old(buffers[idx].wl).None? && !(paramsOk && created.Some?) ==>
        && ret == -1 && buffers[idx].busy == Free && queued == old(queued)
        && buffers[idx].wl == None
        && requests == old(requests) + (if paramsOk then ParamsRequests(
             buffers[idx].cachedFds[..buffers[idx].numFds], buffers[idx].metaFd,
             buffers[idx].stride, buffers[idx].width, buffers[idx].height) else [])
      ensures BusyStates() == old(BusyStates())[idx := buffers[idx].busy]
    {
      if fenceFd >= 0 {
        closedFences := closedFences + [fenceFd];
      }
      if buffers[idx].wl.None? {
        CreateWlBuffer(idx, paramsOk, created);
      }
      if buffers[idx].wl.Some? {
        buffers[idx].busy := Queued;
        queued := Some(idx);
        ret := 0;
      } else {
        buffers[idx].busy := Free;
        ret := -1;
      }
    }

    /** cancelBuffer: a fence, if any, is closed and the buffer is freed. */
    method CancelBuffer(idx: nat, fenceFd: int) returns (ret: int)
      requires Valid() && idx < MaxBuffers
      modifies this`closedFences, (buffers[idx] as WindowBuffer)`busy
      ensures Valid() && ret == 0
      ensures closedFences == old(closedFences) + (if fenceFd >= 0 then [fenceFd] else [])
      ensures BusyStates() == old(BusyStates())[idx := Free]
    {
      if fenceFd >= 0 {
        closedFences := closedFences + [fenceFd];
      }
      buffers[idx].busy := Free;
      ret := 0;
    }

    /** handleRelease: the compositor released `wlBuffer`. The first of the first
        `bufferCount` buffers holding it is freed, and forgotten as the queued buffer if
        it was that; nothing else changes, and nothing at all if no buffer holds it. */
    method HandleRelease(wlBuffer: nat)
      requires Valid()
      modifies this`queued, (buffers[0] as WindowBuffer)`busy, (buffers[1] as WindowBuffer)`busy,
               (buffers[2] as WindowBuffer)`busy, (buffers[3] as WindowBuffer)`busy
      ensures Valid()
      ensures var k := FirstMatch(old(WlBuffers()), old(bufferCount), wlBuffer);
        && (k.None? ==> BusyStates() == old(BusyStates()) && queued == old(queued))
        && (k.Some? ==>
              && BusyStates() == old(BusyStates())[k.value := Free]
              && queued == (if old(queued) == Some(k.value) then None else old(queued)))
      ensures Views() == old(Views()) && Cached() == old(Cached())
      ensures unchanged(this`bufferCount, this`format, this`usage, this`allocateBuffers, this`swapInterval)
      ensures unchanged(this`requests, this`damage, this`attachedHeight, this`closedFences)
    {
      var i := 0;
      while i < bufferCount
        invariant 0 <= i <= Min(Max0(bufferCount), MaxBuffers)
        invariant FirstMatchFrom(WlBuffers(), bufferCount, wlBuffer, i)
               == FirstMatch(WlBuffers(), bufferCount, wlBuffer)
      {
        if buffers[i].wl == Some(wlBuffer) {
          buffers[i].busy := Free;
          if queued == Some(i) {
            queued := None;
          }
          return;
        }
        i := i + 1;
      }
    }

    /** queueLength: the number of queued buffers among the first `bufferCount`. */
    method QueueLength() returns (n: nat)
      requires Valid()
      ensures n == CountQueued(BusyStates()[..Min(Max0(bufferCount), MaxBuffers)])
    {
      n := 0;
      var i := 0;
      var states := BusyStates();
      while i < bufferCount
        invariant 0 <= i <= Min(Max0(bufferCount), MaxBuffers)
        invariant n == CountQueued(states[..i])
      {
        CountQueuedStep(states, i);
        if buffers[i].busy == Queued {
          n := n + 1;
        }
        i := i + 1;
      }
    }

    /** setBuffersFormat: a different format asks for reallocation. */
    method SetBuffersFormat(f: int) returns (ret: int)
      requires Valid()
      modifies this`format, this`allocateBuffers
      ensures Valid() && ret == 0 && format == f
      ensures allocateBuffers == (old(allocateBuffers) || f != old(format))
    {
      allocateBuffers := allocateBuffers || f != format;
      format := f;
      ret := 0;
    }

    /** setUsage: render and texture are always added; a resulting change asks for
        reallocation. */
    method SetUsage(u: bv64) returns (ret: int)
      requires Valid()
      modifies this`usage, this`allocateBuffers
      ensures Valid() && ret == 0
      ensures usage == u | WindowUsage
      ensures allocateBuffers == (old(allocateBuffers) || usage != old(usage))
    {
      var newUsage := u | WindowUsage;
      if newUsage != usage {
        usage := newUsage;
        allocateBuffers := true;
      }
      ret := 0;
    }

    /** setBufferCount: the count is clamped to four; a resulting change asks for
        reallocation. */
    method SetBufferCount(cnt: int) returns (ret: int)
      requires Valid()
      modifies this`bufferCount, this`allocateBuffers
      ensures Valid() && ret == 0
      ensures bufferCount == Min(cnt, MaxBuffers)
      ensures allocateBuffers == (old(allocateBuffers) || bufferCount != old(bufferCount))
    {
      var c := if cnt > MaxBuffers then MaxBuffers else cnt;
      if bufferCount != c {
        bufferCount := c;
        allocateBuffers := true;
      }
      ret := 0;
    }

    /** The resize callback: the next dequeue reallocates. */
    method Resize()
      modifies this`allocateBuffers
      ensures allocateBuffers
    {
      allocateBuffers := true;
    }

    /** setSwapInterval. */
    method SetSwapInterval(interval: int) returns (ret: int)
      modifies this`swapInterval
      ensures ret == 0 && swapInterval == interval
    {
      swapInterval := interval;
      ret := 0;
    }

    /** prepareSwap: the damage of the coming swap, `n` rectangles of `rects`; a missing
        list or a count that is not positive means no rectangles. */
    method PrepareSwap(rects: Option<seq<Rect>>, n: int)
      requires rects.Some? && n > 0 ==> |rects.value| >= n
      modifies this`damage
      ensures damage == if rects.Some? && n > 0 then rects.value[..n] else []
    {
      damage := if rects.Some? && n > 0 then rects.value[..n] else [];
    }

    /** finishSwap (after any wait for the previous frame): a frame callback is requested
        when the swap interval is positive; the queued buffer, if any, is attached and
        forgotten, and the window's height becomes the attached height; the damage
        rectangles are sent flipped to the attached height, or the whole surface is
        damaged when there are none and a buffer was attached; the damage is cleared and
        the surface committed. */
    method FinishSwap(surfaceVersion: nat, windowHeight: int)
      requires Valid()
      modifies this`requests, this`queued, this`attachedHeight, this`damage
      ensures Valid()
      ensures queued == None && damage == []
      ensures attachedHeight == if old(queued).Some? then windowHeight else old(attachedHeight)
      ensures requests == old(requests)
        + (if swapInterval > 0 then [FrameCallback] else [])
        + (if old(queued).Some? then [Attach(buffers[old(queued).value].wl)] else [])
        + SwapDamage(old(damage), attachedHeight, old(queued).Some?, surfaceVersion)
        + [Commit]
    {
      var frame: seq<WlRequest> := if swapInterval > 0 then [FrameCallback] else [];
      var attached := queued;
      var attach: seq<WlRequest> := [];
      if attached.Some? {
        attach := [Attach(buffers[attached.value].wl)];
        attachedHeight := windowHeight;
      }
      queued := None;
      var damaged: seq<WlRequest>;
      if |damage| > 0 && attachedHeight > 0 {
        damaged := FlippedDamage(damage, attachedHeight, surfaceVersion);
      } else if attached.Some? {
        damaged := [DamageRequest(FullDamage, surfaceVersion)];
      } else {
        damaged := [];
      }
      assert damaged == SwapDamage(damage, attachedHeight, attached.Some?, surfaceVersion);
      damage := [];
      requests := requests + frame + attach + damaged + [Commit];
    }
  }

  /** The loop of finishSwap that sends each damage rectangle flipped to the buffer's
      height, as damage_buffer from the surface version that has it and as damage
      before. */
  method FlippedDamage(rects: seq<Rect>, height: int, surfaceVersion: nat)
    returns (reqs: seq<WlRequest>)
    ensures reqs == DamageRequests(rects, height, surfaceVersion)
  {
    reqs := [];
    var i := 0;
    while i < |rects|
      invariant 0 <= i <= |rects|
      invariant reqs == DamageRequests(rects[..i], height, surfaceVersion)
    {
      var r := rects[i];
      var flipped := Rect(r.x, height - r.y - r.h, r.w, r.h);
      if surfaceVersion >= DamageBufferSinceVersion {
        reqs := reqs + [DamageBuffer(flipped)];
      } else {
        reqs := reqs + [Damage(flipped)];
      }
      assert rects[..i + 1][..i] == rects[..i];
      i := i + 1;
    }
    assert rects[..i] == rects;
  }

  function Max0(n: int): nat
  {
    if n < 0 then 0 else n
  }

  /** Queueing a dequeued buffer among the first `bufferCount` lengthens the queue by one. */
  lemma QueueingLengthensQueue(states: seq<int>, count: nat, i: nat)
    requires i < count <= |states| && states[i] == Dequeued
    ensures CountQueued(states[i := Queued][..count]) == CountQueued(states[..count]) + 1
  {
    assert states[i := Queued][..count] == states[..count][i := Queued];
    CountQueuedAfterQueue(states[..count], i);
  }
}
