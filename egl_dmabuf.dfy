/** The dma-buf side of the EGL platform (eglplatform/eglplatform_membrane.cpp): turning
    an EGL_LINUX_DMA_BUF_EXT image import into an Android native buffer
    (passthroughImageKHR), and the format, modifier and config queries that advertise
    what can be imported.

    A passed-through import names its descriptors by plane; the plane with the highest
    index carries the gralloc handle's integers as a file, which is how createWlBuffer
    lays out a window buffer's planes. fstat, read and gralloc's import are outcomes
    given as parameters. */
module EglDmaBuf {
  import opened Common
  import opened EglWindow

  // EGL enumerants (EGL 1.5, EGL_EXT_image_dma_buf_import and its modifiers extension,
  // EGL_ANDROID_image_native_buffer).
  const EglNone := 0x3038
  const EglNativeVisualId := 0x302E
  const EglHeight := 0x3056
  const EglWidth := 0x3057
  const EglDmaBufPlane0Fd := 0x3272
  const EglDmaBufPlane0Pitch := 0x3274
  const EglDmaBufPlane1Fd := 0x3275
  const EglDmaBufPlane2Fd := 0x3278
  const EglDmaBufPlane3Fd := 0x3440
  const EglNativeBufferAndroid := 0x3140

  const DrmFormatXrgb8888 := 0x3432_5258
  const DrmFormatModLinear := 0
  const UsageHwComposer: bv64 := 0x800

  /** The usage a passed-through buffer is wrapped with. */
  const PassthroughUsage: bv64 := WindowUsage | UsageHwComposer

  /** The formats the platform imports, in the order the format query reports them. */
  const SupportedFormats: seq<int> := [DrmFormatArgb8888, DrmFormatXrgb8888]

  // ---------------------------------------------------------------------------------
  // Attribute lists

  /** The plane a key names, when it is one of the four plane descriptor keys. */
  function PlaneOfKey(key: int): (p: Option<int>)
    ensures p.Some? ==> 0 <= p.value <= 3
  {
    if key == EglDmaBufPlane0Fd then Some(0)
    else if key == EglDmaBufPlane1Fd then Some(1)
    else if key == EglDmaBufPlane2Fd then Some(2)
    else if key == EglDmaBufPlane3Fd then Some(3)
    else None
  }

  /** The descriptor key of a plane. */
  function PlaneFdKey(plane: nat): (key: int)
    requires plane <= 3
    ensures PlaneOfKey(key) == Some(plane)
    ensures key != EglNone && key != EglWidth && key != EglHeight && key != EglDmaBufPlane0Pitch
  {
    [EglDmaBufPlane0Fd, EglDmaBufPlane1Fd, EglDmaBufPlane2Fd, EglDmaBufPlane3Fd][plane]
  }

  /** A plane index and its descriptor. */
  type PlaneFd = (int, int)

  /** What the parser keeps: width, height, the plane 0 pitch, and the plane descriptors
      in the order they were given. */
  datatype ImageAttribs = ImageAttribs(width: int, height: int, stride: int, planes: seq<PlaneFd>)

  const NoAttribs := ImageAttribs(0, 0, 0, [])

  /** The effect of one key/value pair; keys the parser does not know are skipped. */
  function Apply(a: ImageAttribs, key: int, value: int): ImageAttribs
  {
    if key == EglWidth then a.(width := value)
    else if key == EglHeight then a.(height := value)
    else if key == EglDmaBufPlane0Pitch then a.(stride := value)
    else match PlaneOfKey(key)
      case Some(p) => a.(planes := a.planes + [(p, value)])
      case None => a
  }

  /** An attribute list ends with EGL_NONE in a key position. */
  ghost predicate Terminated(attrs: seq<int>)
  {
    exists k :: 0 <= k < |attrs| && k % 2 == 0 && attrs[k] == EglNone
  }

  /** The attributes left by walking the key/value pairs of `attrs` up to EGL_NONE,
      starting from `acc`; plane descriptors are only ever appended. */
  function ParseFrom(acc: ImageAttribs, attrs: seq<int>): (a: ImageAttribs)
    ensures acc.planes <= a.planes
    decreases |attrs|
  {
    if |attrs| < 2 || attrs[0] == EglNone then acc
    else ParseFrom(Apply(acc, attrs[0], attrs[1]), attrs[2..])
  }

  /** The attributes of a whole list. */
  function Parse(attrs: seq<int>): ImageAttribs
  {
    ParseFrom(NoAttribs, attrs)
  }

  /** Parsing from a key that is not EGL_NONE applies its pair and goes on after it. */
  lemma ParseAt(acc: ImageAttribs, attrs: seq<int>, i: nat)
    requires i + 1 < |attrs| && attrs[i] != EglNone
    ensures ParseFrom(acc, attrs[i..]) == ParseFrom(Apply(acc, attrs[i], attrs[i + 1]), attrs[i + 2..])
  {
    assert attrs[i..][2..] == attrs[i + 2..];
  }

  /** The parsing loop of passthroughImageKHR. */
  method ParseAttribs(attrs: seq<int>) returns (a: ImageAttribs)
    requires Terminated(attrs)
    ensures a == Parse(attrs)
    ensures forall j :: 0 <= j < |a.planes| ==> 0 <= a.planes[j].0 <= 3
  {
    a := NoAttribs;
    var i := 0;
    while attrs[i] != EglNone
      invariant 0 <= i < |attrs| && i % 2 == 0
      invariant exists k :: i <= k < |attrs| && k % 2 == 0 && attrs[k] == EglNone
      invariant ParseFrom(a, attrs[i..]) == Parse(attrs)
      invariant forall j :: 0 <= j < |a.planes| ==> 0 <= a.planes[j].0 <= 3
      decreases |attrs| - i
    {
      var key, value := attrs[i], attrs[i + 1];
      ghost var before := a;
      if key == EglWidth {
        a := a.(width := value);
      } else if key == EglHeight {
        a := a.(height := value);
      } else if key == EglDmaBufPlane0Pitch {
        a := a.(stride := value);
      } else if key == EglDmaBufPlane0Fd {
        a := a.(planes := a.planes + [(0, value)]);
      } else if key == EglDmaBufPlane1Fd {
        a := a.(planes := a.planes + [(1, value)]);
      } else if key == EglDmaBufPlane2Fd {
        a := a.(planes := a.planes + [(2, value)]);
      } else if key == EglDmaBufPlane3Fd {
        a := a.(planes := a.planes + [(3, value)]);
      }
      assert a == Apply(before, key, value);
      ParseAt(before, attrs, i);
      i := i + 2;
    }
  }

  /** The key/value pairs naming `fds` as planes `from`, `from + 1`, ... */
  function PlaneAttribs(fds: seq<int>, from: nat): (attrs: seq<int>)
    requires from + |fds| <= 4
    ensures |attrs| == 2 * |fds|
  {
    if fds == [] then [] else [PlaneFdKey(from), fds[0]] + PlaneAttribs(fds[1..], from + 1)
  }

  /** `fds` numbered as planes `from`, `from + 1`, ... */
  function Numbered(fds: seq<int>, from: nat): (planes: seq<PlaneFd>)
    ensures |planes| == |fds|
    ensures forall j {:trigger planes[j]} :: 0 <= j < |fds| ==> planes[j] == (from + j, fds[j])
  {
    if fds == [] then [] else [(from, fds[0])] + Numbered(fds[1..], from + 1)
  }

  /** One key/value pair before the rest of a list. */
  lemma ParseStep(acc: ImageAttribs, key: int, value: int, rest: seq<int>)
    requires key != EglNone
    ensures ParseFrom(acc, [key, value] + rest) == ParseFrom(Apply(acc, key, value), rest)
  {
    assert ([key, value] + rest)[2..] == rest;
  }

  /** Parsing plane descriptor pairs appends the numbered planes and changes nothing
      else. */
  lemma {:induction false} ParsePlanes(acc: ImageAttribs, fds: seq<int>, from: nat, rest: seq<int>)
    requires from + |fds| <= 4
    ensures ParseFrom(acc, PlaneAttribs(fds, from) + rest)
         == ParseFrom(acc.(planes := acc.planes + Numbered(fds, from)), rest)
    decreases |fds|
  {
    if fds == [] {
      assert PlaneAttribs(fds, from) + rest == rest;
      assert acc.planes + Numbered(fds, from) == acc.planes;
    } else {
      var key := PlaneFdKey(from);
      var tail := PlaneAttribs(fds[1..], from + 1) + rest;
      assert PlaneAttribs(fds, from) + rest == [key, fds[0]] + tail;
      ParseStep(acc, key, fds[0], tail);
      var next := acc.(planes := acc.planes + [(from, fds[0])]);
      assert Apply(acc, key, fds[0]) == next;
      ParsePlanes(next, fds[1..], from + 1, rest);
      assert next.planes + Numbered(fds[1..], from + 1) == acc.planes + Numbered(fds, from);
    }
  }

  /** The attribute list a compositor builds for a buffer of `w` x `h` with plane 0
      pitch `pitch` and the descriptors `fds` as planes 0, 1, ... */
  function ImportAttribs(w: int, h: int, pitch: int, fds: seq<int>): seq<int>
    requires |fds| <= 4
  {
    [EglWidth, w] + ([EglHeight, h] + ([EglDmaBufPlane0Pitch, pitch] + (PlaneAttribs(fds, 0) + [EglNone])))
  }

  /** Such a list ends with EGL_NONE in a key position. */
  lemma ImportAttribsTerminated(w: int, h: int, pitch: int, fds: seq<int>)
    requires |fds| <= 4
    ensures Terminated(ImportAttribs(w, h, pitch, fds))
  {
    var k := 6 + 2 * |fds|;
    assert ImportAttribs(w, h, pitch, fds)[k] == EglNone;
  }

  /** The width, height and pitch pairs at the head of a list set those three
      attributes. */
  lemma ParseHeader(w: int, h: int, pitch: int, rest: seq<int>)
    ensures ParseFrom(NoAttribs, [EglWidth, w] + ([EglHeight, h] + ([EglDmaBufPlane0Pitch, pitch] + rest)))
         == ParseFrom(ImageAttribs(w, h, pitch, []), rest)
  {
    var third := [EglDmaBufPlane0Pitch, pitch] + rest;
    var a1 := NoAttribs.(width := w);
    var a2 := a1.(height := h);
    ParseStep(NoAttribs, EglWidth, w, [EglHeight, h] + third);
    ParseStep(a1, EglHeight, h, third);
    ParseStep(a2, EglDmaBufPlane0Pitch, pitch, rest);
  }

  /** Such a list parses back to its size, pitch and numbered planes. */
  lemma ParseImportAttribs(w: int, h: int, pitch: int, fds: seq<int>)
    requires |fds| <= 4
    ensures Parse(ImportAttribs(w, h, pitch, fds)) == ImageAttribs(w, h, pitch, Numbered(fds, 0))
  {
    var acc := ImageAttribs(w, h, pitch, []);
    var numbered := Numbered(fds, 0);
    ParseHeader(w, h, pitch, PlaneAttribs(fds, 0) + [EglNone]);
    ParsePlanes(acc, fds, 0, [EglNone]);
    assert acc.(planes := acc.planes + numbered) == ImageAttribs(w, h, pitch, numbered);
    assert ParseFrom(ImageAttribs(w, h, pitch, numbered), [EglNone]) == ImageAttribs(w, h, pitch, numbered);
  }

  // ---------------------------------------------------------------------------------
  // Sorting the planes (std::sort on (plane, fd) pairs)

  /** Lexicographic order on (plane, fd). */
  predicate PlaneLe(a: PlaneFd, b: PlaneFd)
  {
    a.0 < b.0 || (a.0 == b.0 && a.1 <= b.1)
  }

  predicate SortedPlanes(s: seq<PlaneFd>)
  {
    forall i, j :: 0 <= i < j < |s| ==> PlaneLe(s[i], s[j])
  }

  /** `x` inserted into sorted `s` before the first entry not below it. */
  function Insert(x: PlaneFd, s: seq<PlaneFd>): (r: seq<PlaneFd>)
    requires SortedPlanes(s)
    ensures SortedPlanes(r)
    ensures multiset(r) == multiset(s) + multiset{x}
    ensures |r| == |s| + 1
    ensures r[0] == x || (s != [] && r[0] == s[0])
  {
    if s == [] then [x]
    else if PlaneLe(x, s[0]) then [x] + s
    else
      assert s == [s[0]] + s[1..];
      var rest := Insert(x, s[1..]);
      assert PlaneLe(s[0], rest[0]);
      SortedCons(s[0], rest);
      [s[0]] + rest
  }

  /** An entry no higher than the head of a sorted sequence extends it sorted. */
  lemma SortedCons(a: PlaneFd, t: seq<PlaneFd>)
    requires SortedPlanes(t) && t != [] && PlaneLe(a, t[0])
    ensures SortedPlanes([a] + t)
  {
    var r := [a] + t;
    forall i, j | 0 <= i < j < |r|
      ensures PlaneLe(r[i], r[j])
    {
      if i == 0 {
        assert r[j] == t[j - 1];
        assert PlaneLe(t[0], t[j - 1]) || j == 1;
      } else {
        assert r[i] == t[i - 1] && r[j] == t[j - 1];
      }
    }
  }

  /** The planes in ascending (plane, fd) order. */
  function SortPlanes(s: seq<PlaneFd>): (r: seq<PlaneFd>)
    ensures SortedPlanes(r)
    ensures multiset(r) == multiset(s)
    ensures |r| == |s|
  {
    if s == [] then []
    else
      assert s == s[..|s| - 1] + [s[|s| - 1]];
      Insert(s[|s| - 1], SortPlanes(s[..|s| - 1]))
  }

  /** Inserting an entry no lower than any of a sorted sequence appends it. */
  lemma {:induction false} InsertLast(x: PlaneFd, s: seq<PlaneFd>)
    requires SortedPlanes(s)
    requires forall j :: 0 <= j < |s| ==> PlaneLe(s[j], x) && s[j] != x
    ensures Insert(x, s) == s + [x]
  {
    if s != [] {
      assert !PlaneLe(x, s[0]);
      InsertLast(x, s[1..]);
      assert [s[0]] + (s[1..] + [x]) == s + [x];
    }
  }

  /** Plane indices strictly ascending. */
  predicate AscendingPlanes(s: seq<PlaneFd>)
  {
    forall i, j :: 0 <= i < j < |s| ==> s[i].0 < s[j].0
  }

  /** Sorting planes whose indices already ascend keeps them as they are. */
  lemma {:induction false} SortAscending(s: seq<PlaneFd>)
    requires AscendingPlanes(s)
    ensures SortPlanes(s) == s
    decreases |s|
  {
    if s != [] {
      var last := |s| - 1;
      var init := s[..last];
      SortAscending(init);
      InsertLast(s[last], init);
      assert init + [s[last]] == s;
    }
  }

  /** Planes numbered in ascending order are already sorted, so sorting keeps them. */
  lemma SortNumbered(fds: seq<int>, from: nat)
    ensures SortPlanes(Numbered(fds, from)) == Numbered(fds, from)
  {
    SortAscending(Numbered(fds, from));
  }

  // ---------------------------------------------------------------------------------
  // passthroughImageKHR

  /** An imported image as passthroughImageKHR hands it back: the EGL target, the
      RemoteWindowBuffer's geometry, format and usage, the handle gralloc's import
      returned, and the native handle given to the import. */
  datatype PassedImage = PassedImage(
    target: int, width: int, height: int, stride: int, format: int, usage: bv64,
    handle: nat, source: NativeHandle)

  /** The descriptors of a list of planes. */
  function FdsOf(planes: seq<PlaneFd>): (fds: seq<int>)
    ensures |fds| == |planes|
    ensures forall j :: 0 <= j < |planes| ==> fds[j] == planes[j].1
  {
    seq(|planes|, j requires 0 <= j < |planes| => planes[j].1)
  }

  /** Numbering descriptors as planes and taking the planes' descriptors gives the
      descriptors back. */
  lemma FdsOfNumbered(fds: seq<int>, from: nat)
    ensures FdsOf(Numbered(fds, from)) == fds
  {
    var planes := Numbered(fds, from);
    assert forall j :: 0 <= j < |fds| ==> FdsOf(planes)[j] == planes[j].1 == fds[j];
  }

  /** What the import reads from the metadata file: `st_size / sizeof(int)` integers, of
      which `fileInts` holds at least as many when the read is full. */
  predicate ReadConsistent(metaSize: Option<int>, fullRead: bool, fileInts: seq<int>)
  {
    metaSize.Some? && metaSize.value > 0 && fullRead ==> |fileInts| >= metaSize.value / IntSize
  }

  /** passthroughImageKHR. Without an attribute list, without plane descriptors, when
      the metadata file cannot be stat'ed or is empty, when the read is short, or when
      gralloc's import (`imported`) fails, nothing is passed through. Otherwise the
      planes are sorted; the descriptor of the highest is the metadata file, whose
      `st_size / sizeof(int)` integers follow the other descriptors in a new native
      handle; the import's result becomes a native buffer with the parsed size, the
      pitch in pixels (C division by four), RGBA_8888 and render, texture and composer
      usage. */
  function Passthrough(attrs: Option<seq<int>>, metaSize: Option<int>, fullRead: bool,
                       fileInts: seq<int>, imported: Option<nat>): Option<PassedImage>
    requires ReadConsistent(metaSize, fullRead, fileInts)
  {
    if attrs.None? then None
    else
      var a := Parse(attrs.value);
      var planes := SortPlanes(a.planes);
      if planes == [] || metaSize.None? || metaSize.value <= 0 || !fullRead || imported.None? then None
      else
        var numInts := metaSize.value / IntSize;
        var fds := FdsOf(planes[..|planes| - 1]);
        Some(PassedImage(EglNativeBufferAndroid, a.width, a.height, CDiv(a.stride, 4),
                         HalPixelFormatRgba8888, PassthroughUsage, imported.value,
                         NativeHandle(|fds|, numInts, fds + fileInts[..numInts])))
  }

  /** native_handle_create and the two copy loops: the descriptors, then the integers. */
  method BuildHandle(fds: seq<int>, ints: seq<int>) returns (nh: NativeHandle)
    ensures nh.numFds == |fds| && nh.numInts == |ints|
    ensures |nh.data| == nh.numFds + nh.numInts
    ensures nh.data[..nh.numFds] == fds && nh.data[nh.numFds..] == ints
  {
    var data := new int[|fds| + |ints|];
    var i := 0;
    while i < |fds|
      modifies data
      invariant 0 <= i <= |fds|
      invariant data[..i] == fds[..i]
    {
      data[i] := fds[i];
      i := i + 1;
    }
    var j := 0;
    while j < |ints|
      modifies data
      invariant 0 <= j <= |ints|
      invariant data[..|fds|] == fds
      invariant data[|fds|..|fds| + j] == ints[..j]
    {
      data[|fds| + j] := ints[j];
      j := j + 1;
    }
    assert data[|fds|..] == data[|fds|..|fds| + j];
    nh := NativeHandle(|fds|, |ints|, data[..]);
  }

  /** passthroughImageKHR as the source runs it: parse, sort, split off the metadata
      descriptor, read, build the handle and import. */
  method PassthroughImage(attrs: Option<seq<int>>, metaSize: Option<int>, fullRead: bool,
                          fileInts: seq<int>, imported: Option<nat>)
    returns (image: Option<PassedImage>)
    requires attrs.Some? ==> Terminated(attrs.value)
    requires ReadConsistent(metaSize, fullRead, fileInts)
    ensures image == Passthrough(attrs, metaSize, fullRead, fileInts, imported)
  {
    if attrs.None? {
      return None;
    }
    var a := ParseAttribs(attrs.value);
    var planes := SortPlanes(a.planes);
    if planes == [] || metaSize.None? || metaSize.value <= 0 || !fullRead {
      return None;
    }
    var numInts := metaSize.value / IntSize;
    var fds := FdsOf(planes[..|planes| - 1]);
    var nh := BuildHandle(fds, fileInts[..numInts]);
    assert nh.data == nh.data[..nh.numFds] + nh.data[nh.numFds..];
    if imported.None? {
      return None;
    }
    image := Some(PassedImage(EglNativeBufferAndroid, a.width, a.height, CDiv(a.stride, 4),
                              HalPixelFormatRgba8888, PassthroughUsage, imported.value, nh));
  }

  /** When an image is passed through, the highest plane was the metadata file: the
      handle holds one descriptor fewer than there were planes, the plane descriptors in
      ascending plane order, and every integer of the file. */
  lemma PassthroughLayout(attrs: seq<int>, metaSize: Option<int>, fullRead: bool,
                          fileInts: seq<int>, imported: Option<nat>)
    requires ReadConsistent(metaSize, fullRead, fileInts)
    requires Passthrough(Some(attrs), metaSize, fullRead, fileInts, imported).Some?
    ensures var img := Passthrough(Some(attrs), metaSize, fullRead, fileInts, imported).value;
      var planes := SortPlanes(Parse(attrs).planes);
      && img.source.numFds == |planes| - 1
      && img.source.numInts * IntSize <= metaSize.value < img.source.numInts * IntSize + IntSize
      && img.source.data[..img.source.numFds] == FdsOf(planes[..|planes| - 1])
      && img.source.data[img.source.numFds..] == fileInts[..img.source.numInts]
      && img.target == EglNativeBufferAndroid
  {
    var img := Passthrough(Some(attrs), metaSize, fullRead, fileInts, imported).value;
    var planes := SortPlanes(Parse(attrs).planes);
    var fds := FdsOf(planes[..|planes| - 1]);
    assert img.source.data == fds + fileInts[..img.source.numInts];
    assert img.source.data[..img.source.numFds] == fds;
  }

  /** The compositor's side of zwp_linux_buffer_params_v1, which is outside this
      repository: the requests sent on one parameters object, from its creation to its
      destruction right after create_immed, become the attribute list of an
      EGL_LINUX_DMA_BUF_EXT import. The added planes must be
      numbered 0, 1, ... in the order they were added, and there are at most four
      (the four plane descriptor keys of the import). Plane 0's pitch is the pitch the
      list names; of the other keys a compositor writes, the passthrough reads none,
      so they are left out. */
  function CompositorAttribs(reqs: seq<WlRequest>): (attrs: Option<seq<int>>)
    ensures attrs.Some? ==> Terminated(attrs.value)
  {
    if |reqs| < 4 || reqs[0] != CreateParams || !reqs[|reqs| - 2].CreateImmed?
       || reqs[|reqs| - 1] != DestroyParams then None
    else
      var planes := reqs[1..|reqs| - 2];
      if |planes| > 4 || exists i :: 0 <= i < |planes| && !(planes[i].AddPlane? && planes[i].plane == i) then None
      else
        var fds := seq(|planes|, i requires 0 <= i < |planes| => planes[i].fd);
        var last := reqs[|reqs| - 2];
        ImportAttribsTerminated(last.width, last.height, planes[0].stride, fds);
        Some(ImportAttribs(last.width, last.height, planes[0].stride, fds))
  }

  /** What a compositor makes of createWlBuffer's requests: with a metadata file, the
      cached descriptors and the file become planes 0 .. |fds|, and plane 0's pitch is
      four bytes per pixel, or the file's pitch of 1 when there are no cached
      descriptors. Four cached descriptors and the file are one plane too many. */
  lemma CompositorParams(fds: seq<int>, metaFd: int, stride: int, w: int, h: int)
    requires metaFd >= 0
    ensures CompositorAttribs(ParamsRequests(fds, metaFd, stride, w, h))
         == if |fds| > 3 then None
            else Some(ImportAttribs(w, h, if fds == [] then 1 else stride * 4, fds + [metaFd]))
  {
    var reqs := ParamsRequests(fds, metaFd, stride, w, h);
    var planes := reqs[1..|reqs| - 2];
    assert reqs[|reqs| - 2] == CreateImmed(w, h, DrmFormatArgb8888);
    if |fds| <= 3 {
      forall i | 0 <= i < |planes|
        ensures planes[i].AddPlane? && planes[i].plane == i
      {
        assert planes[i] == reqs[1 + i];
      }
      var got := seq(|planes|, i requires 0 <= i < |planes| => planes[i].fd);
      assert got == fds + [metaFd] by {
        forall i | 0 <= i < |planes|
          ensures got[i] == (fds + [metaFd])[i]
        {
          assert planes[i] == reqs[1 + i];
        }
      }
      assert planes[0] == reqs[1];
    }
  }

  /** An import list naming up to three descriptors and a metadata file after them,
      read in full, passes through the descriptors, the file's integers and the pitch
      in pixels. */
  lemma ImportRoundTrip(w: int, h: int, pitch: int, fds: seq<int>, metaFd: int,
                        ints: seq<int>, imported: nat)
    requires |fds| <= 3 && ints != []
    ensures ReadConsistent(Some(|ints| * IntSize), true, ints)
    ensures Passthrough(Some(ImportAttribs(w, h, pitch, fds + [metaFd])), Some(|ints| * IntSize),
                        true, ints, Some(imported))
         == Some(PassedImage(EglNativeBufferAndroid, w, h, CDiv(pitch, 4), HalPixelFormatRgba8888,
                             PassthroughUsage, imported, NativeHandle(|fds|, |ints|, fds + ints)))
  {
    var all := fds + [metaFd];
    var attrs := ImportAttribs(w, h, pitch, all);
    assert (|ints| * IntSize) / IntSize == |ints|;
    ParseImportAttribs(w, h, pitch, all);
    SortNumbered(all, 0);
    var planes := Numbered(all, 0);
    assert SortPlanes(Parse(attrs).planes) == planes;
    assert planes[..|planes| - 1] == Numbered(fds, 0);
    FdsOfNumbered(fds, 0);
    assert ints[..|ints|] == ints;
  }

  /** The round trip with a window buffer: a compositor that imports a wl_buffer made by
      createWlBuffer, whose metadata file holds the handle's integers, passes through a
      native handle with exactly the cached descriptors and those integers, and the
      buffer's stride in pixels. Without cached descriptors the metadata file's pitch
      of 1 is plane 0's, so the stride comes back 0; with four there is no import. */
  lemma WindowBufferRoundTrip(w: int, h: int, stride: int, fds: seq<int>, metaFd: int,
                              ints: seq<int>, imported: nat)
    requires stride >= 0 && metaFd >= 0 && ints != []
    ensures var attrs := CompositorAttribs(ParamsRequests(fds, metaFd, stride, w, h));
      var size := Some(|ints| * IntSize);
      && (attrs.Some? <==> |fds| <= 3)
      && ReadConsistent(size, true, ints)
      && (attrs.Some? ==>
            Passthrough(attrs, size, true, ints, Some(imported))
            == Some(PassedImage(EglNativeBufferAndroid, w, h, if fds == [] then 0 else stride,
                                HalPixelFormatRgba8888, PassthroughUsage, imported,
                                NativeHandle(|fds|, |ints|, fds + ints))))
  {
    CompositorParams(fds, metaFd, stride, w, h);
    var pitch := if fds == [] then 1 else stride * 4;
    if |fds| <= 3 {
      ImportRoundTrip(w, h, pitch, fds, metaFd, ints, imported);
      assert CDiv(pitch, 4) == if fds == [] then 0 else stride;
    } else {
      assert (|ints| * IntSize) / IntSize == |ints|;
    }
  }

  // ---------------------------------------------------------------------------------
  // Queries

  /** What eglQueryDmaBufModifiersEXT returns and writes: the count, when asked for, and
      the first modifier and external-only flag, when there is room and a buffer. */
  datatype ModifierQuery = ModifierQuery(ok: bool, numModifiers: Option<int>,
                                         modifiers: seq<int>, externalOnly: seq<bool>)

  /** eglQueryDmaBufModifiersEXT: formats other than ARGB8888 and XRGB8888 are refused
      and nothing is written; the supported ones have exactly one modifier, linear, and
      it is not external-only. */
  function QueryDmaBufModifiers(format: int, maxModifiers: int, hasModifiers: bool,
                                hasExternalOnly: bool, hasNum: bool): (q: ModifierQuery)
    ensures q.ok <==> format in SupportedFormats
    ensures !q.ok ==> q.numModifiers == None && q.modifiers == [] && q.externalOnly == []
    ensures q.ok && hasNum ==> q.numModifiers == Some(1)
    ensures !hasNum ==> q.numModifiers == None
    ensures |q.modifiers| <= 1 && (|q.modifiers| == 1 ==> maxModifiers > 0 && q.modifiers[0] == DrmFormatModLinear)
    ensures q.ok && maxModifiers > 0 && hasModifiers ==> q.modifiers == [DrmFormatModLinear]
    ensures q.ok && maxModifiers > 0 && hasExternalOnly ==> q.externalOnly == [false]
    ensures |q.externalOnly| <= 1 && (maxModifiers <= 0 ==> q.externalOnly == [])
  {
    if format != DrmFormatArgb8888 && format != DrmFormatXrgb8888 then ModifierQuery(false, None, [], [])
    else
      ModifierQuery(true, if hasNum then Some(1) else None,
                    if maxModifiers > 0 && hasModifiers then [DrmFormatModLinear] else [],
                    if maxModifiers > 0 && hasExternalOnly then [false] else [])
  }

  /** What eglQueryDmaBufFormatsEXT returns and writes. */
  datatype FormatQuery = FormatQuery(ok: bool, numFormats: Option<int>, formats: seq<int>)

  /** eglQueryDmaBufFormatsEXT: without a count pointer the query fails and writes
      nothing; otherwise the count is two and the formats written are the first
      `maxFormats` of ARGB8888, XRGB8888, when a buffer is given. */
  function QueryDmaBufFormats(maxFormats: int, hasFormats: bool, hasNum: bool): (q: FormatQuery)
    ensures q.ok <==> hasNum
    ensures !q.ok ==> q.numFormats == None && q.formats == []
    ensures q.ok ==> q.numFormats == Some(|SupportedFormats|)
    ensures q.formats <= SupportedFormats
    ensures |q.formats| == if hasNum && hasFormats && maxFormats > 0 then Min(maxFormats, 2) else 0
  {
    if !hasNum then FormatQuery(false, None, [])
    else
      FormatQuery(true, Some(2),
        if maxFormats > 0 && hasFormats then
          (if maxFormats > 1 then [DrmFormatArgb8888, DrmFormatXrgb8888] else [DrmFormatArgb8888])
        else [])
  }

  /** The two queries agree: every format the format query reports is accepted by the
      modifier query with linear as its modifier, and a full format query reports them
      all. */
  lemma QueriesAgree(maxFormats: int, f: int)
    requires maxFormats >= 2
    ensures QueryDmaBufFormats(maxFormats, true, true).formats == SupportedFormats
    ensures f in QueryDmaBufFormats(maxFormats, true, true).formats <==>
            QueryDmaBufModifiers(f, 1, true, true, true).ok
    ensures f in SupportedFormats ==>
            QueryDmaBufModifiers(f, 1, true, true, true).modifiers == [DrmFormatModLinear]
  {
  }

  /** eglGetConfigAttrib: the native visual of every config is ARGB8888; other
      attributes are not answered. */
  function GetConfigAttrib(attribute: int): (r: Option<int>)
    ensures r.Some? <==> attribute == EglNativeVisualId
    ensures r.Some? ==> r.value in SupportedFormats
  {
    if attribute == EglNativeVisualId then Some(DrmFormatArgb8888) else None
  }
}
