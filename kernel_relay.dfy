/** The kernel-to-daemon relay of the DRM driver (kernel/membrane_drm.c and
    kernel/membrane_rw.c). The device holds two bounded FIFOs of 64 entries: one of
    messages for the daemon (CRTC power changes and page flips), read one message at a
    time, and one of open files handed over by prime import and popped by the daemon as
    new descriptors. A write of a configuration record updates the mode and raises a
    hotplug event when it changed.

    Each spin-locked section is one atomic step. The calling process's descriptor table
    and the reference counts of open files are part of the state, so that the moves of
    file references between the table and the FIFO can be stated. */
module KernelRelay {
  import opened Common
  import Connector

  const FifoSize := 64     // MEMBRANE_FIFO_SIZE
  const MsgSize := 12      // sizeof(struct membrane_k2u_msg): three 32-bit fields
  const CfgSize := 16      // sizeof(struct membrane_u2k_cfg): four 32-bit fields

  /** struct membrane_k2u_msg, with the `present` field that page_flip sets. */
  datatype Msg = Msg(flags: set<Flag>, bufId: int, dpms: int, present: int)

  /** struct membrane_u2k_cfg. */
  datatype Cfg = Cfg(w: int, h: int, r: int, reserved: int)

  /** The device's current mode: mdev->w, mdev->h, mdev->r. */
  datatype Mode = Mode(w: int, h: int, r: int)

  /** Observable effects of the driver, in the order they happen. */
  datatype Effect =
    | VblankEventSent            // drm_crtc_send_vblank_event
    | Queued(msg: Msg)           // kfifo_put into the message FIFO
    | Dropped(msg: Msg)          // message not queued: FIFO full
    | ReadersWoken               // wake_up_interruptible on the read wait queue
    | HotplugRaised              // drm_kms_helper_hotplug_event

  /** The message crtc_enable (dpms 0) and crtc_disable (dpms 1) queue; the fields not
      named by their initialisers are zero. */
  function DpmsMsg(dpms: int): Msg
  {
    Msg({DpmsUpdated}, 0, dpms, 0)
  }

  /** The message page_flip queues. */
  const PresentMsg := Msg({PresentUpdated}, 0, 0, 1)

  /** A put guarded by "not full": the message is appended or silently dropped. */
  function Put<T>(q: seq<T>, x: T): seq<T>
  {
    if |q| < FifoSize then q + [x] else q
  }

  /** The effect a guarded put has. */
  function PutEffect(q: seq<Msg>, m: Msg): Effect
  {
    if |q| < FifoSize then Queued(m) else Dropped(m)
  }

  /** Guarded puts of each of `xs` in turn. */
  function PutAll<T>(q: seq<T>, xs: seq<T>): seq<T>
    decreases |xs|
  {
    if xs == [] then q else PutAll(Put(q, xs[0]), xs[1..])
  }

  /** A guarded put never lets the FIFO exceed its capacity. */
  lemma PutBounded<T>(q: seq<T>, x: T)
    requires |q| <= FifoSize
    ensures |Put(q, x)| <= FifoSize
    ensures Put(q, x) == q || Put(q, x) == q + [x]
  {
  }

  /** A run of guarded puts keeps the queued messages in order and loses exactly the
      ones that arrive once the FIFO is full. */
  lemma {:induction false} PutAllKeepsOrder<T>(q: seq<T>, xs: seq<T>)
    requires |q| <= FifoSize
    ensures PutAll(q, xs) == q + xs[..Min(|xs|, FifoSize - |q|)]
    ensures |PutAll(q, xs)| <= FifoSize
    decreases |xs|
  {
    if xs != [] {
      PutAllKeepsOrder(Put(q, xs[0]), xs[1..]);
      if |q| < FifoSize {
        assert (q + [xs[0]]) + xs[1..][..Min(|xs| - 1, FifoSize - |q| - 1)]
            == q + xs[..Min(|xs|, FifoSize - |q|)];
      } else {
        assert xs[1..][..0] == [] && xs[..0] == [];
      }
    }
  }

  /** The mode update of a write: the new mode is always the written triple, and a
      change (which raises a hotplug event) is reported exactly when it differs. */
  function ApplyConfig(m: Mode, c: Cfg): (res: (Mode, bool))
    ensures res.0 == Mode(c.w, c.h, c.r)
    ensures res.1 <==> m != Mode(c.w, c.h, c.r)
  {
    if m.w != c.w || m.h != c.h || m.r != c.r then (Mode(c.w, c.h, c.r), true) else (m, false)
  }

  /** Writing the same configuration twice reports a change at most once. */
  lemma ApplyConfigIdempotent(m: Mode, c: Cfg)
    ensures ApplyConfig(ApplyConfig(m, c).0, c).0 == ApplyConfig(m, c).0
    ensures !ApplyConfig(ApplyConfig(m, c).0, c).1
  {
  }

  /** After a write that raises a hotplug event, re-probing the connector reports a single
      preferred mode of the written size and refresh rate. */
  lemma HotplugReportsWrittenMode(m: Mode, c: Cfg)
    requires ApplyConfig(m, c).1
    ensures var mode := ApplyConfig(m, c).0;
      var (n, modes) := Connector.GetModes(true, mode.w, mode.h, mode.r);
      n == 1 && modes[0].hdisplay == c.w && modes[0].vdisplay == c.h
      && modes[0] == Connector.ModeFor(c.w, c.h, c.r)
  {
  }

  /** The reference count of `f` in `refs`; files without an entry have none. */
  function RefOf(refs: map<FileRef, nat>, f: FileRef): nat
  {
    if f in refs then refs[f] else 0
  }

  /** References to `f` held by what the model sees: one per file FIFO entry and one
      per descriptor of the table. */
  ghost function HeldIn(fifo: seq<FileRef>, table: map<int, FileRef>, f: FileRef): nat
  {
    multiset(fifo)[f] + |KeysWith(table, f)|
  }

  /** No file has fewer references than holders, so no release can underflow a count. */
  ghost predicate Covered(fifo: seq<FileRef>, table: map<int, FileRef>, refs: map<FileRef, nat>)
  {
    forall f: FileRef :: HeldIn(fifo, table, f) <= RefOf(refs, f)
  }

  /** A file behind a descriptor has at least one reference. */
  lemma CoveredTable(fifo: seq<FileRef>, table: map<int, FileRef>, refs: map<FileRef, nat>, fd: int)
    requires Covered(fifo, table, refs) && fd in table
    ensures table[fd] in refs && refs[table[fd]] >= 1
  {
    var f := table[fd];
    assert fd in KeysWith(table, f);
    assert HeldIn(fifo, table, f) <= RefOf(refs, f);
  }

  /** Taking one more reference to a file and queueing it keeps every file covered. */
  lemma CoveredPush(fifo: seq<FileRef>, table: map<int, FileRef>, refs: map<FileRef, nat>, file: FileRef)
    requires Covered(fifo, table, refs)
    ensures Covered(fifo + [file], table, refs[file := RefOf(refs, file) + 1])
  {
    var refs' := refs[file := RefOf(refs, file) + 1];
    assert multiset(fifo + [file]) == multiset(fifo) + multiset{file};
    forall f: FileRef
      ensures HeldIn(fifo + [file], table, f) <= RefOf(refs', f)
    {
      assert HeldIn(fifo, table, f) <= RefOf(refs, f);
    }
  }

  /** Dequeuing the oldest file and dropping its reference keeps every file covered;
      the file had a reference to drop. */
  lemma CoveredPop(f: FileRef, rest: seq<FileRef>, table: map<int, FileRef>, refs: map<FileRef, nat>)
    requires Covered([f] + rest, table, refs)
    ensures RefOf(refs, f) >= 1
    ensures Covered(rest, table, refs[f := RefOf(refs, f) - 1])
  {
    assert multiset([f] + rest) == multiset{f} + multiset(rest);
    assert HeldIn([f] + rest, table, f) <= RefOf(refs, f);
    var refs' := refs[f := RefOf(refs, f) - 1];
    forall g: FileRef
      ensures HeldIn(rest, table, g) <= RefOf(refs', g)
    {
      assert HeldIn([f] + rest, table, g) <= RefOf(refs, g);
    }
  }

  /** Moving the oldest file from the FIFO to a new descriptor keeps every file
      covered: its reference passes from the FIFO entry to the descriptor. */
  lemma CoveredInstall(f: FileRef, rest: seq<FileRef>, table: map<int, FileRef>,
                       refs: map<FileRef, nat>, newFd: int)
    requires Covered([f] + rest, table, refs) && newFd !in table
    ensures Covered(rest, table[newFd := f], refs)
  {
    assert multiset([f] + rest) == multiset{f} + multiset(rest);
    forall g: FileRef
      ensures HeldIn(rest, table[newFd := f], g) <= RefOf(refs, g)
    {
      KeysWithAdd(table, newFd, f, g);
      assert HeldIn([f] + rest, table, g) <= RefOf(refs, g);
    }
  }

  class Device {
    var events: seq<Msg>                // mdev->kfifo, oldest first
    var fdFifo: seq<FileRef>            // mdev->fd_fifo, oldest first
    var w: int
    var h: int
    var r: int
    var fdTable: map<int, FileRef>      // descriptor table of the calling process
    var refs: map<FileRef, nat>         // reference counts of open files
    var effects: seq<Effect>

    function Refs(f: FileRef): nat
      reads this
    {
      RefOf(refs, f)
    }

    function CurrentMode(): Mode
      reads this
    {
      Mode(w, h, r)
    }

    /** Both FIFOs within capacity, and no file has fewer references than holders, so
        that no release can underflow a count. */
    ghost predicate Valid()
      reads this
    {
      && |events| <= FifoSize
      && |fdFifo| <= FifoSize
      && Covered(fdFifo, fdTable, refs)
    }

    /** The device as membrane_load leaves it: empty FIFOs and the 1920x1080@60 default
        mode. The descriptor table and reference counts are those of the environment. */
    constructor (table: map<int, FileRef>, fileRefs: map<FileRef, nat>)
      requires Covered([], table, fileRefs)
      ensures Valid()
      ensures events == [] && fdFifo == [] && effects == []
      ensures CurrentMode() == Mode(Connector.DefaultWidth, Connector.DefaultHeight, Connector.DefaultRefresh)
      ensures fdTable == table && refs == fileRefs
    {
      events, fdFifo, effects := [], [], [];
      w, h, r := Connector.DefaultWidth, Connector.DefaultHeight, Connector.DefaultRefresh;
      fdTable, refs := table, fileRefs;
    }

    /** crtc_enable: queue one DPMS message with dpms 0 unless the FIFO is full, then wake
        readers. */
    method CrtcEnable()
      requires Valid()
      modifies this
      ensures Valid()
      ensures |old(events)| < FifoSize ==> events == old(events) + [DpmsMsg(0)]
      ensures |old(events)| >= FifoSize ==> events == old(events)
      ensures effects == old(effects) + [PutEffect(old(events), DpmsMsg(0)), ReadersWoken]
      ensures fdFifo == old(fdFifo) && fdTable == old(fdTable) && refs == old(refs)
      ensures CurrentMode() == old(CurrentMode())
    {
      var ev := DpmsMsg(0);
      if |events| < FifoSize {
        events := events + [ev];
        effects := effects + [Queued(ev)];
      } else {
        effects := effects + [Dropped(ev)];
      }
      effects := effects + [ReadersWoken];
    }

    /** crtc_disable: queue one DPMS message with dpms 1 unless the FIFO is full, then
        wake readers. */
    method CrtcDisable()
      requires Valid()
      modifies this
      ensures Valid()
      ensures |old(events)| < FifoSize ==> events == old(events) + [DpmsMsg(1)]
      ensures |old(events)| >= FifoSize ==> events == old(events)
      ensures effects == old(effects) + [PutEffect(old(events), DpmsMsg(1)), ReadersWoken]
      ensures fdFifo == old(fdFifo) && fdTable == old(fdTable) && refs == old(refs)
      ensures CurrentMode() == old(CurrentMode())
    {
      var ev := DpmsMsg(1);
      if |events| < FifoSize {
        events := events + [ev];
        effects := effects + [Queued(ev)];
      } else {
        effects := effects + [Dropped(ev)];
      }
      effects := effects + [ReadersWoken];
    }

    /** set_config: a mode set without a framebuffer or without connectors powers the
        CRTC off, any other powers it on; it always succeeds. */
    method SetConfig(hasFb: bool, numConnectors: nat) returns (ret: int)
      requires Valid()
      modifies this
      ensures Valid()
      ensures ret == 0
      ensures var m := DpmsMsg(if !hasFb || numConnectors == 0 then 1 else 0);
        && events == Put(old(events), m)
        && effects == old(effects) + [PutEffect(old(events), m), ReadersWoken]
      ensures fdFifo == old(fdFifo) && fdTable == old(fdTable) && refs == old(refs)
      ensures CurrentMode() == old(CurrentMode())
    {
      if !hasFb || numConnectors == 0 {
        CrtcDisable();
        return 0;
      }
      CrtcEnable();
      return 0;
    }

    /** page_flip: send the pending vblank event first when there is one, then queue a
        present message unless the FIFO is full, wake readers, and succeed. */
    method PageFlip(hasEvent: bool) returns (ret: int)
      requires Valid()
      modifies this
      ensures Valid()
      ensures ret == 0
      ensures events == Put(old(events), PresentMsg)
      ensures effects == old(effects) + (if hasEvent then [VblankEventSent] else [])
                         + [PutEffect(old(events), PresentMsg), ReadersWoken]
      ensures fdFifo == old(fdFifo) && fdTable == old(fdTable) && refs == old(refs)
      ensures CurrentMode() == old(CurrentMode())
    {
      var ev := PresentMsg;
      if hasEvent {
        effects := effects + [VblankEventSent];
      }
      if |events| < FifoSize {
        events := events + [ev];
        effects := effects + [Queued(ev)];
      } else {
        effects := effects + [Dropped(ev)];
      }
      effects := effects + [ReadersWoken];
      ret := 0;
    }

    /** prime_fd_to_handle (FIFO version): take a reference to the file behind `fd` and
        append it to the file FIFO. An unknown descriptor fails with EBADF; a full FIFO
        fails with ENOSPC after dropping the reference just taken. */
    method PrimeFdToHandle(fd: int) returns (ret: int)
      requires Valid()
      modifies this
      ensures Valid()
      ensures fd !in old(fdTable) ==> ret == -EBADF && fdFifo == old(fdFifo) && refs == old(refs)
      ensures fd in old(fdTable) && |old(fdFifo)| >= FifoSize ==>
        ret == -ENOSPC && fdFifo == old(fdFifo) && refs == old(refs)
      ensures fd in old(fdTable) && |old(fdFifo)| < FifoSize ==>
        var f := old(fdTable)[fd];
        ret == 0 && fdFifo == old(fdFifo) + [f] && refs == old(refs)[f := old(Refs(f)) + 1]
      ensures events == old(events) && effects == old(effects) && fdTable == old(fdTable)
      ensures CurrentMode() == old(CurrentMode())
    {
      if fd !in fdTable {
        return -EBADF;
      }
      var file := fdTable[fd];
      CoveredTable(fdFifo, fdTable, refs, fd);
      refs := refs[file := Refs(file) + 1];           // fget
      if |fdFifo| >= FifoSize {
        refs := refs[file := Refs(file) - 1];         // fput
        assert refs == old(refs);
        return -ENOSPC;
      }
      CoveredPush(fdFifo, fdTable, old(refs), file);
      fdFifo := fdFifo + [file];
      ret := 0;
    }

    /** pop_fd: take the oldest file off the FIFO and install it as the new descriptor
        `newFd` that descriptor allocation returned; a negative `newFd` is the allocation
        error, returned after the file's reference is dropped. An empty FIFO fails with
        EAGAIN and changes nothing. */
    method PopFd(newFd: int) returns (ret: int, fd: int)
      requires Valid()
      requires newFd < 0 || newFd !in fdTable
      modifies this
      ensures Valid()
      ensures old(fdFifo) == [] ==>
        ret == -EAGAIN && fdFifo == [] && refs == old(refs) && fdTable == old(fdTable)
      ensures old(fdFifo) != [] && newFd < 0 ==>
        var f := old(fdFifo)[0];
        ret == newFd && fdFifo == old(fdFifo)[1..] && fdTable == old(fdTable)
        && Refs(f) + 1 == old(Refs(f)) && (forall g :: g != f ==> Refs(g) == old(Refs(g)))
      ensures old(fdFifo) != [] && newFd >= 0 ==>
        ret == 0 && fd == newFd && fdFifo == old(fdFifo)[1..]
        && fdTable == old(fdTable)[newFd := old(fdFifo)[0]] && refs == old(refs)
      ensures events == old(events) && effects == old(effects)
      ensures CurrentMode() == old(CurrentMode())
    {
      if fdFifo == [] {
        return -EAGAIN, 0;
      }
      var f := fdFifo[0];
      assert fdFifo == [f] + fdFifo[1..];
      fdFifo := fdFifo[1..];
      if newFd < 0 {
        CoveredPop(f, fdFifo, fdTable, refs);
        refs := refs[f := Refs(f) - 1];               // fput
        return newFd, 0;
      }
      CoveredInstall(f, fdFifo, fdTable, refs, newFd);
      fdTable := fdTable[newFd := f];                 // fd_install
      ret, fd := 0, newFd;
    }

    /** read: deliver the oldest message. A buffer shorter than one message fails with
        EINVAL. The wait returns at once when a message is queued; only when the FIFO is
        empty does the reader sleep, and then a signal (`interrupted`) fails the read with
        ERESTARTSYS, while a wake-up that finds the FIFO drained again yields 0; both
        leave the FIFO as it was. A failed copy to user space reports EFAULT after the
        message has been removed. */
    method Read(len: nat, interrupted: bool, copyFaults: bool) returns (ret: int, msg: Option<Msg>)
      requires Valid()
      modifies this
      ensures Valid()
      ensures len < MsgSize ==> ret == -EINVAL && events == old(events) && msg == None
      ensures len >= MsgSize && old(events) == [] && interrupted ==>
        ret == -ERESTARTSYS && events == [] && msg == None
      ensures len >= MsgSize && old(events) == [] && !interrupted ==>
        ret == 0 && events == [] && msg == None
      ensures len >= MsgSize && old(events) != [] ==>
        && events == old(events)[1..]
        && (copyFaults ==> ret == -EFAULT && msg == None)
        && (!copyFaults ==> ret == MsgSize && msg == Some(old(events)[0]))
      ensures fdFifo == old(fdFifo) && fdTable == old(fdTable) && refs == old(refs)
      ensures effects == old(effects) && CurrentMode() == old(CurrentMode())
    {
      msg := None;
      if len < MsgSize {
        return -EINVAL, msg;
      }
      if events == [] {
        if interrupted {
          return -ERESTARTSYS, msg;
        }
        return 0, msg;
      }
      var ev := events[0];
      events := events[1..];
      if copyFaults {
        return -EFAULT, msg;
      }
      msg := Some(ev);
      ret := MsgSize;
    }

    /** write: a record of the wrong size fails with EINVAL and a failed copy from user
        space with EFAULT, both leaving the mode as it was; otherwise the mode becomes the
        written triple, a hotplug event is raised exactly when it changed, and the record
        size is returned. */
    method Write(len: nat, cfg: Cfg, copyFaults: bool) returns (ret: int)
      requires Valid()
      modifies this
      ensures Valid()
      ensures len != CfgSize ==>
        ret == -EINVAL && CurrentMode() == old(CurrentMode()) && effects == old(effects)
      ensures len == CfgSize && copyFaults ==>
        ret == -EFAULT && CurrentMode() == old(CurrentMode()) && effects == old(effects)
      ensures len == CfgSize && !copyFaults ==>
        var (mode, changed) := ApplyConfig(old(CurrentMode()), cfg);
        ret == CfgSize && CurrentMode() == mode
        && effects == old(effects) + (if changed then [HotplugRaised] else [])
      ensures events == old(events) && fdFifo == old(fdFifo)
      ensures fdTable == old(fdTable) && refs == old(refs)
    {
      if len != CfgSize {
        return -EINVAL;
      }
      if copyFaults {
        return -EFAULT;
      }
      var modeChanged := false;
      if w != cfg.w || h != cfg.h || r != cfg.r {
        w, h, r := cfg.w, cfg.h, cfg.r;
        modeChanged := true;
      }
      if modeChanged {
        effects := effects + [HotplugRaised];
      }
      ret := CfgSize;
    }
  }

  /** A power-on followed by a read hands the daemon the DPMS message with dpms 0 when the
      FIFO started empty, whether or not a signal is pending: the wait does not sleep
      while a message is queued. */
  method EnableThenRead(d: Device, interrupted: bool) returns (ret: int, msg: Option<Msg>)
    requires d.Valid() && d.events == []
    modifies d
    ensures ret == MsgSize && msg == Some(DpmsMsg(0)) && d.events == []
  {
    d.CrtcEnable();
    ret, msg := d.Read(MsgSize, interrupted, false);
  }
}
