/** The user-space daemon (daemon/main.c): the configuration it sends to the driver, the
    walk over the DRM event records it reads, the per-present fetch of buffer descriptors,
    the rebuilding of a gralloc native handle from them, and the hardware composer call
    sequence of one present.

    Everything the daemon asks of other components is a parameter: the descriptors the
    kernel serves for a present (`served`), the metadata file's size and contents, the
    outcome of the gralloc import, and the composer's answers. Composer and gralloc
    failures that the daemon only asserts against are not modelled. */
module Daemon {
  import opened Common
  import Connector
  import KernelRelay

  const MaxPresentFds := 8            // size of the fds[] array of handle_present
  const FallbackRefresh := 60         // refresh rate sent when none can be derived
  const HalPixelFormatRgba8888 := 1
  const UsageHwTexture: bv32 := 0x100
  const UsageHwRender: bv32 := 0x200
  const UsageHwComposer: bv32 := 0x800

  /** Usage bits of every buffer the daemon imports. */
  const PresentUsage: bv32 := UsageHwRender | UsageHwTexture | UsageHwComposer

  // ---------------------------------------------------------------------------------
  // membrane_send_cfg

  /** The refresh rate sent to the driver. `rounded` is the rounded rate 1e9 / vsyncPeriod
      that the daemon computes in floating point when the period is positive. */
  function RefreshRate(vsyncPeriod: int, rounded: int): (r: int)
    ensures r > 0
    ensures r == rounded || r == FallbackRefresh
    ensures vsyncPeriod > 0 && rounded > 0 ==> r == rounded
    ensures vsyncPeriod <= 0 ==> r == FallbackRefresh
  {
    var r := if vsyncPeriod > 0 then rounded else FallbackRefresh;
    if r <= 0 then FallbackRefresh else r
  }

  /** The configuration record written by membrane_send_cfg. */
  function SendCfg(width: int, height: int, vsyncPeriod: int, rounded: int): (c: KernelRelay.Cfg)
    ensures c.w == width && c.h == height && c.reserved == 0
    ensures c.r == RefreshRate(vsyncPeriod, rounded) && c.r > 0
  {
    KernelRelay.Cfg(width, height, RefreshRate(vsyncPeriod, rounded), 0)
  }

  /** Whatever the display reports, once the driver applies the configuration the daemon
      sends, the mode it advertises has the display's size and a positive pixel clock. */
  lemma SentConfigGivesUsableMode(m: KernelRelay.Mode, width: int, height: int, vsyncPeriod: int, rounded: int)
    requires width >= 0 && height >= 0
    ensures var mode := KernelRelay.ApplyConfig(m, SendCfg(width, height, vsyncPeriod, rounded)).0;
      && mode.w == width && mode.h == height
      && Connector.ModeFor(mode.w, mode.h, mode.r).clock > 0
  {
    var c := SendCfg(width, height, vsyncPeriod, rounded);
    Connector.ClockPositive(width, height, c.r);
  }

  // ---------------------------------------------------------------------------------
  // do_present_block

  /** Calls made on the hardware composer display. */
  datatype HwcCall =
    | Validate
    | AcceptChanges
    | SetClientTarget(slot: nat, acquireFence: int)
    | Present
    | CloseFence(fd: int)

  /** The order the composer protocol asks for: validate first, accepting changes only
      right after validation, the client target set right before presenting, and the
      returned fence closed only after the present. */
  predicate ComposerOrder(calls: seq<HwcCall>)
  {
    && |calls| >= 3
    && calls[0] == Validate
    && (forall i :: 0 <= i < |calls| && calls[i] == AcceptChanges ==> i == 1)
    && (forall i :: 0 <= i < |calls| && calls[i].SetClientTarget? ==> i + 1 < |calls| && calls[i + 1] == Present)
    && (forall i :: 0 <= i < |calls| && calls[i].CloseFence? ==> i == |calls| - 1 && calls[i - 1] == Present)
  }

  /** do_present_block: validate; accept the composer's changes if it reported changed
      types or requests; set the buffer as client target with no acquire fence; present;
      close the present fence if the composer returned one. */
  function PresentBlock(numTypes: nat, numReqs: nat, presentFence: int): (calls: seq<HwcCall>)
    ensures ComposerOrder(calls)
    ensures AcceptChanges in calls <==> numTypes != 0 || numReqs != 0
    ensures SetClientTarget(0, -1) in calls && Present in calls
    ensures CloseFence(presentFence) in calls <==> presentFence >= 0
    ensures forall i :: 0 <= i < |calls| && calls[i].CloseFence? ==> calls[i].fd == presentFence
  {
    [Validate]
    + (if numTypes != 0 || numReqs != 0 then [AcceptChanges] else [])
    + [SetClientTarget(0, -1), Present]
    + (if presentFence >= 0 then [CloseFence(presentFence)] else [])
  }

  // ---------------------------------------------------------------------------------
  // import_buffer_from_fds

  /** The metadata integers after calloc and a read that delivered `fileInts`: what the
      read did not deliver stays zero. */
  function MetaInts(fileInts: seq<int>, n: nat): (ints: seq<int>)
    ensures |ints| == n
  {
    seq(n, i requires 0 <= i < n => if i < |fileInts| then fileInts[i] else 0)
  }

  /** Number of metadata integers for a metadata file of `size` bytes. */
  function NumInts(size: int): nat
    requires size > 0
  {
    size / IntSize
  }

  /** The native handle the daemon rebuilds from the fetched descriptors `fds`, the
      metadata file's size (None when fstat fails) and the integers its read delivers. */
  function HandleFor(fds: seq<int>, metaSize: Option<int>, fileInts: seq<int>): Option<NativeHandle>
  {
    if |fds| < 2 || metaSize.None? || metaSize.value <= 0 then None
    else
      var n := NumInts(metaSize.value);
      Some(NativeHandle(|fds| - 1, n, fds[..|fds| - 1] + MetaInts(fileInts, n)))
  }

  /** The rebuilt handle exists exactly when there are at least two descriptors and a
      metadata file of positive size; its descriptors are all but the last one, in order,
      and its integers are the metadata file's, size / sizeof(int) of them, zero where the
      read fell short. */
  lemma HandleLayout(fds: seq<int>, metaSize: Option<int>, fileInts: seq<int>)
    ensures HandleFor(fds, metaSize, fileInts).Some?
        <==> |fds| >= 2 && metaSize.Some? && metaSize.value > 0
    ensures HandleFor(fds, metaSize, fileInts).Some? ==>
      var h := HandleFor(fds, metaSize, fileInts).value;
      && h.numFds == |fds| - 1
      && h.numInts * IntSize <= metaSize.value < h.numInts * IntSize + IntSize
      && |h.data| == h.numFds + h.numInts
      && h.data[..h.numFds] == fds[..|fds| - 1]
      && (forall j :: 0 <= j < h.numInts ==>
            h.data[h.numFds + j] == (if j < |fileInts| then fileInts[j] else 0))
  {
    if HandleFor(fds, metaSize, fileInts).Some? {
      var h := HandleFor(fds, metaSize, fileInts).value;
      forall j | 0 <= j < h.numInts
        ensures h.data[h.numFds + j] == (if j < |fileInts| then fileInts[j] else 0)
      {
        assert h.data[h.numFds + j] == MetaInts(fileInts, h.numInts)[j];
      }
    }
  }

  /** Bytes the metadata read asks for, as written: the whole file size. */
  function MetaReadLengthAsWritten(size: int): int
  {
    size
  }

  /** Bytes of the buffer the metadata is read into: calloc(size / sizeof(int), sizeof(int)). */
  function MetaBufferBytes(size: int): int
    requires size > 0
  {
    NumInts(size) * IntSize
  }

  /** A metadata file whose size is not a multiple of sizeof(int) makes the read, as
      written, ask for more bytes than the buffer holds: six bytes into a four-byte
      buffer. */
  lemma MetaReadOverrun()
    ensures MetaReadLengthAsWritten(6) > MetaBufferBytes(6)
    ensures exists size :: size > 0 && MetaReadLengthAsWritten(size) > MetaBufferBytes(size)
  {
    assert MetaReadLengthAsWritten(6) > MetaBufferBytes(6);
  }

  /** Bytes the metadata read should ask for: the whole integers the buffer holds. */
  function MetaReadLength(size: int): (n: int)
    requires size > 0
    ensures n == MetaBufferBytes(size)
    ensures size - IntSize < n <= size
  {
    NumInts(size) * IntSize
  }

  /** import_buffer_from_fds with the read bounded by MetaReadLength: the plane
      descriptors and then the metadata integers are copied into a new native handle,
      which is imported when gralloc accepts it. */
  method ImportBufferFromFds(fds: seq<int>, metaSize: Option<int>, fileInts: seq<int>, importOk: bool)
    returns (handle: Option<NativeHandle>)
    ensures handle == (if importOk then HandleFor(fds, metaSize, fileInts) else None)
  {
    if |fds| < 2 {
      return None;
    }
    var planeFds := |fds| - 1;
    if metaSize.None? || metaSize.value <= 0 {
      return None;
    }
    var numInts := NumInts(metaSize.value);
    var ints := ReadMetaInts(metaSize.value, fileInts);
    var data := HandleData(fds[..planeFds], ints[..]);
    if importOk {
      handle := Some(NativeHandle(planeFds, numInts, data[..]));
    } else {
      handle := None;
    }
  }

  /** The metadata buffer of import_buffer_from_fds: `size / sizeof(int)` zeroed
      integers, then the bounded read fills those the file supplies. */
  method ReadMetaInts(size: int, fileInts: seq<int>) returns (ints: array<int>)
    requires size > 0
    ensures fresh(ints)
    ensures ints[..] == MetaInts(fileInts, NumInts(size))
  {
    var numInts := NumInts(size);
    ints := new int[numInts](_ => 0);                           // calloc
    var got := Min(|fileInts|, MetaReadLength(size) / IntSize);
    assert MetaReadLength(size) / IntSize == numInts;
    forall i | 0 <= i < got {                                   // read
      ints[i] := fileInts[i];
    }
    forall k | 0 <= k < numInts
      ensures ints[..][k] == MetaInts(fileInts, numInts)[k]
    {
      if k < got {
        assert ints[k] == fileInts[k];
      } else {
        assert ints[k] == 0;
      }
    }
  }

  /** native_handle_create and the two copy loops: the plane descriptors, then the
      metadata integers. */
  method HandleData(planes: seq<int>, ints: seq<int>) returns (data: array<int>)
    ensures fresh(data)
    ensures data[..] == planes + ints
  {
    data := new int[|planes| + |ints|];
    var i := 0;
    while i < |planes|
      modifies data
      invariant 0 <= i <= |planes|
      invariant forall k :: 0 <= k < i ==> data[k] == planes[k]
    {
      data[i] := planes[i];
      i := i + 1;
    }
    i := 0;
    while i < |ints|
      modifies data
      invariant 0 <= i <= |ints|
      invariant forall k :: 0 <= k < |planes| ==> data[k] == planes[k]
      invariant forall k :: 0 <= k < i ==> data[|planes| + k] == ints[k]
    {
      data[|planes| + i] := ints[i];
      i := i + 1;
    }
    assert forall k :: |planes| <= k < data.Length ==> data[k] == ints[k - |planes|];
  }

  // ---------------------------------------------------------------------------------
  // membrane_event_loop

  datatype EventKind = MembraneEvent | OtherEvent(code: nat)

  /** A DRM event record: its header (type and length in bytes) and, for the driver's own
      events, its flags, present id and descriptor count. */
  datatype DrmEvent = DrmEvent(kind: EventKind, length: nat, flags: set<Flag>, presentId: nat, numFds: nat)

  /** A present request: the present id and the number of descriptors to fetch. */
  datatype PresentRequest = PresentRequest(presentId: nat, numFds: nat)

  predicate TriggersPresent(e: DrmEvent)
  {
    e.kind == MembraneEvent && PresentUpdated in e.flags
  }

  /** Bytes taken by records laid out back to back. */
  function TotalLength(records: seq<DrmEvent>): nat
  {
    if records == [] then 0 else TotalLength(records[..|records| - 1]) + records[|records| - 1].length
  }

  /** The present requests of `records`, in order. */
  function Presents(records: seq<DrmEvent>): seq<PresentRequest>
  {
    if records == [] then []
    else
      var e := records[|records| - 1];
      Presents(records[..|records| - 1])
      + (if TriggersPresent(e) then [PresentRequest(e.presentId, e.numFds)] else [])
  }

  /** The record whose header starts at byte `off`, reading from the front. */
  function RecordAt(records: seq<DrmEvent>, off: nat): DrmEvent
    requires records != []
  {
    if off < records[0].length || |records| == 1 then records[0]
    else RecordAt(records[1..], off - records[0].length)
  }

  lemma {:induction false} TotalLengthFront(records: seq<DrmEvent>)
    requires records != []
    ensures TotalLength(records) == records[0].length + TotalLength(records[1..])
    decreases |records|
  {
    if |records| > 1 {
      var init := records[..|records| - 1];
      TotalLengthFront(init);
      assert init[1..] == records[1..][..|records[1..]| - 1];
    }
  }

  /** With positive record lengths, the header at the end of the first k records is
      record k. */
  lemma {:induction false} RecordAtBoundary(records: seq<DrmEvent>, k: nat)
    requires k < |records|
    requires forall i :: 0 <= i < |records| ==> records[i].length > 0
    ensures RecordAt(records, TotalLength(records[..k])) == records[k]
    decreases k
  {
    if k > 0 {
      TotalLengthFront(records[..k]);
      assert records[..k][1..] == records[1..][..k - 1];
      RecordAtBoundary(records[1..], k - 1);
    } else {
      assert records[..k] == [];
    }
  }

  /** One pass over the records returned by one read: the cursor starts at 0 and
      advances by each record's length until it reaches the bytes read; every driver
      event with the present flag yields a present request, in order. `visited` counts
      the records. */
  method EventLoopPass(records: seq<DrmEvent>) returns (requests: seq<PresentRequest>, visited: nat)
    requires forall i :: 0 <= i < |records| ==> records[i].length > 0
    ensures requests == Presents(records)
    ensures visited == |records|
  {
    var len := TotalLength(records);
    var off := 0;
    visited := 0;
    requests := [];
    while off < len
      invariant 0 <= visited <= |records|
      invariant off == TotalLength(records[..visited])
      invariant requests == Presents(records[..visited])
      decreases len - off
    {
      if visited == |records| {
        assert false;
      }
      RecordAtBoundary(records, visited);
      var e := RecordAt(records, off);
      if TriggersPresent(e) {
        requests := requests + [PresentRequest(e.presentId, e.numFds)];
      }
      assert records[..visited + 1][..visited] == records[..visited];
      off := off + e.length;
      visited := visited + 1;
    }
    if visited < |records| {
      TotalLengthPrefix(records, visited);
      assert false;
    }
    assert records[..visited] == records;
  }

  /** A proper prefix of positive-length records is strictly shorter than the whole. */
  lemma {:induction false} TotalLengthPrefix(records: seq<DrmEvent>, k: nat)
    requires k < |records|
    requires forall i :: 0 <= i < |records| ==> records[i].length > 0
    ensures TotalLength(records[..k]) < TotalLength(records)
    decreases |records|
  {
    var init := records[..|records| - 1];
    if k < |init| {
      TotalLengthPrefix(init, k);
      assert init[..k] == records[..k];
    } else {
      assert init == records[..k];
    }
  }

  /** Only driver events carrying the present flag produce requests, one each. */
  lemma {:induction false} PresentsComeFromPresentEvents(records: seq<DrmEvent>)
    ensures |Presents(records)| <= |records|
    ensures forall r :: r in Presents(records) ==>
      exists e :: e in records && TriggersPresent(e) && r == PresentRequest(e.presentId, e.numFds)
    decreases |records|
  {
    if records != [] {
      var init := records[..|records| - 1];
      PresentsComeFromPresentEvents(init);
      forall r | r in Presents(records)
        ensures exists e :: e in records && TriggersPresent(e) && r == PresentRequest(e.presentId, e.numFds)
      {
        if r in Presents(init) {
          var e :| e in init && TriggersPresent(e) && r == PresentRequest(e.presentId, e.numFds);
          assert e in records;
        } else {
          assert records[|records| - 1] in records;
        }
      }
    }
  }

  // ---------------------------------------------------------------------------------
  // membrane_handle_present and its dispatch from the event loop

  /** Number of GET_PRESENT_FD requests issued for `numFds` descriptors when the kernel
      serves `served` of them: the loop stops at the first failure. */
  function Issued(numFds: nat, served: nat): nat
  {
    if numFds <= served then numFds else served + 1
  }

  /** The requests for indices 0 .. n-1 of one present. */
  function FdRequests(presentId: nat, n: nat): (reqs: seq<(nat, nat)>)
    ensures |reqs| == n
    ensures forall i :: 0 <= i < n ==> reqs[i] == (presentId, i)
  {
    seq(n, i requires 0 <= i < n => (presentId, i))
  }

  /** The descriptor fetches stop at the first failure: the requests issued are the
      first ones of the full run, one past the served ones when a fetch fails, and all
      of them exactly when at most the last fetch fails. */
  lemma FdRequestsStopAtFailure(presentId: nat, numFds: nat, served: nat)
    ensures Issued(numFds, served) <= numFds
    ensures FdRequests(presentId, Issued(numFds, served)) <= FdRequests(presentId, numFds)
    ensures Issued(numFds, served) < numFds ==> Issued(numFds, served) == served + 1
    ensures Issued(numFds, served) == numFds <==> numFds <= served + 1
  {
    var k := Issued(numFds, served);
    assert FdRequests(presentId, k) == FdRequests(presentId, numFds)[..k];
  }

  /** The daemon's state that outlives a present: the descriptor requests it has issued,
      the descriptors it has closed, the composer calls it has made, whether the remote
      window buffer properties are set, and the references it holds on remote window
      buffers. */
  class Presenter {
    var fdRequests: seq<(nat, nat)>
    var closed: seq<int>
    var hwc: seq<HwcCall>
    var propertiesSet: bool
    var bufferRefs: nat

    constructor ()
      ensures fdRequests == [] && closed == [] && hwc == []
      ensures !propertiesSet && bufferRefs == 0
    {
      fdRequests, closed, hwc := [], [], [];
      propertiesSet, bufferRefs := false, 0;
    }

    /** rwb_new: needs the properties set beforehand; the new buffer is referenced once. */
    method RwbNew(handle: NativeHandle) returns (buffer: NativeHandle)
      requires propertiesSet
      modifies this
      ensures buffer == handle
      ensures bufferRefs == old(bufferRefs) + 1
      ensures fdRequests == old(fdRequests) && closed == old(closed) && hwc == old(hwc)
      ensures propertiesSet
    {
      bufferRefs := bufferRefs + 1;
      buffer := handle;
    }

    /** membrane_handle_present. More than eight descriptors are refused before any
        request. Otherwise indices 0, 1, ... are requested in order until one fails or all
        `numFds` are fetched; a failure or fewer than two descriptors fails the present.
        Every fetched descriptor is closed exactly once, in fetch order, on every path. A
        successful import yields a buffer with one reference. */
    method HandlePresent(presentId: nat, numFds: nat, served: seq<int>,
                         metaSize: Option<int>, fileInts: seq<int>, importOk: bool)
      returns (buffer: Option<NativeHandle>)
      modifies this
      ensures hwc == old(hwc)
      ensures numFds > MaxPresentFds ==>
        buffer == None && fdRequests == old(fdRequests) && closed == old(closed)
        && bufferRefs == old(bufferRefs) && propertiesSet == old(propertiesSet)
      ensures numFds <= MaxPresentFds ==>
        && fdRequests == old(fdRequests) + FdRequests(presentId, Issued(numFds, |served|))
        && closed == old(closed) + served[..Min(numFds, |served|)]
      ensures buffer.Some? <==>
        numFds <= MaxPresentFds && numFds <= |served| && importOk
        && HandleFor(served[..numFds], metaSize, fileInts).Some?
      ensures buffer.Some? ==>
        && buffer == HandleFor(served[..numFds], metaSize, fileInts)
        && bufferRefs == old(bufferRefs) + 1 && propertiesSet
      ensures buffer.None? ==> bufferRefs == old(bufferRefs)
    {
      if numFds > MaxPresentFds {
        return None;
      }
      var fds := new int[MaxPresentFds];
      var nfds := 0;
      var i := 0;
      var failed := false;
      while i < numFds && !failed
        invariant 0 <= i <= numFds && nfds <= i
        invariant !failed ==> nfds == i && i <= |served|
        invariant failed ==> nfds == |served| && i == |served| + 1
        invariant fds[..nfds] == served[..nfds]
        invariant fdRequests == old(fdRequests) + FdRequests(presentId, i)
        invariant closed == old(closed) && hwc == old(hwc)
        invariant bufferRefs == old(bufferRefs) && propertiesSet == old(propertiesSet)
      {
        fdRequests := fdRequests + [(presentId, i)];
        if i < |served| {
          fds[nfds] := served[i];
          nfds := nfds + 1;
        } else {
          failed := true;
        }
        i := i + 1;
      }
      assert i == Issued(numFds, |served|);
      assert nfds == Min(numFds, |served|);
      var fetched := fds[..nfds];
      if failed || nfds < 2 {
        CloseAll(fds, nfds);
        return None;
      }
      buffer := ImportBufferFromFds(fetched, metaSize, fileInts, importOk);
      CloseAll(fds, nfds);
      if buffer.None? {
        return None;
      }
      propertiesSet := true;                        // rwb_set_properties
      var b := RwbNew(buffer.value);
      buffer := Some(b);
    }

    /** Closes fds[0 .. n-1] in order. */
    method CloseAll(fds: array<int>, n: nat)
      requires n <= fds.Length
      modifies this
      ensures closed == old(closed) + fds[..n]
      ensures fdRequests == old(fdRequests) && hwc == old(hwc)
      ensures bufferRefs == old(bufferRefs) && propertiesSet == old(propertiesSet)
    {
      var i := 0;
      while i < n
        invariant 0 <= i <= n
        invariant closed == old(closed) + fds[..i]
        invariant fdRequests == old(fdRequests) && hwc == old(hwc)
        invariant bufferRefs == old(bufferRefs) && propertiesSet == old(propertiesSet)
      {
        closed := closed + [fds[i]];
        assert fds[..i + 1] == fds[..i] + [fds[i]];
        i := i + 1;
      }
    }

    /** The event loop's handling of one present request: fetch and import the buffer; if
        that succeeds, run the composer's present sequence on it and drop the buffer's
        reference, so no reference outlives the present. */
    method ServePresent(req: PresentRequest, served: seq<int>, metaSize: Option<int>,
                        fileInts: seq<int>, importOk: bool,
                        numTypes: nat, numReqs: nat, presentFence: int)
      returns (presented: bool)
      modifies this
      ensures bufferRefs == old(bufferRefs)
      ensures presented <==>
        req.numFds <= MaxPresentFds && req.numFds <= |served| && importOk
        && HandleFor(served[..req.numFds], metaSize, fileInts).Some?
      ensures hwc == old(hwc) + (if presented then PresentBlock(numTypes, numReqs, presentFence) else [])
      ensures req.numFds <= MaxPresentFds ==>
        closed == old(closed) + served[..Min(req.numFds, |served|)]
      ensures req.numFds > MaxPresentFds ==> closed == old(closed)
    {
      var buffer := HandlePresent(req.presentId, req.numFds, served, metaSize, fileInts, importOk);
      presented := buffer.Some?;
      if presented {
        hwc := hwc + PresentBlock(numTypes, numReqs, presentFence);
        bufferRefs := bufferRefs - 1;               // decRef
      }
    }
  }
}
