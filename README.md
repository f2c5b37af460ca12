# membrane, modelled in Dafny

membrane lets an Android hardware composer show a Linux compositor's output. It has
four parts, and the model follows them one Dafny module each:

- **Kernel driver** (`kernel/`). This is a virtual DRM device with one connector, one
  CRTC and one plane.
  - The connector reports a single mode built from the width, height and refresh rate
    that the daemon last wrote. It is always connected and every mode is valid
    (module `Connector`).
  - A CRTC enable or disable, a mode set and a page flip each push a
    `membrane_k2u_msg` into a 64-entry FIFO that the daemon reads. The daemon writes a
    `membrane_u2k_cfg` back, and the driver raises a hotplug when the mode changed.
  - PRIME imports park the imported dma-buf file in a second 64-entry FIFO.
    `MEMBRANE_POP_FD` hands those files back to the daemon as new descriptors
    (module `KernelRelay`, class `Device`).
  - A GEM flavour of the import turns a dma-buf descriptor into a GEM handle that
    holds a reference on the file (module `Gem`, class `GemDevice`).
- **Daemon** (`daemon/`), module `Daemon`.
  - It sends the display configuration to the kernel.
  - It reads the event records the kernel queues.
  - For each present request it collects the plane descriptors and the metadata
    descriptor with `MEMBRANE_GET_PRESENT_FD`. It rebuilds a gralloc native handle from them
    and presents it through the composer: validate, accept changes, set the client
    target, present, then close the fence.
- **EGL platform, window side** (`eglplatform/`), module `EglWindow`.
  - `MembraneNativeWindowBuffer` is a class. It owns a gralloc buffer, up to four
    cached dma-buf descriptors, a metadata memfd and a `wl_buffer`.
  - `MembraneNativeWindow` is a class. It keeps four such buffers and their busy
    states (free, dequeued, queued). It reallocates them when the size, format, usage
    or count changes. It emits Wayland requests, all kept in one log: the creation of
    a linux-dmabuf params object, its planes, `create_immed` and the object's
    destruction; wl_buffer destruction; attach, damage, frame and commit.
- **EGL platform, dma-buf side** (`eglplatform/`), module `EglDmaBuf`.
  - `passthroughImageKHR` parses an EGL dma-buf attribute list and sorts the planes.
    It treats the last plane as the metadata file and rebuilds an Android native
    handle from it.
  - Three small queries list the supported formats and modifiers and the native
    visual.

Shared values live in module `Common`. These are:
- the errno values;
- the message flags;
- C's truncating division `CDiv`;
- the `native_handle_t` layout `NativeHandle`;
- the ghost `KeysWith`, which counts the map entries holding a given file; the
  reference-count invariants are stated with it.

## Reference counts

Both kernel classes keep the same invariant. Every dma-buf file referenced from the
process's descriptor table, from the fd FIFO or from a GEM object holds at least that
many references (`Covered`). So a `fput` on a pop or on freeing an object never
drops a count below zero.

## Model

| member | source | states |
|---|---|---|
| Common.CDiv | kernel/membrane_drv.c:37-66 | C's `/` truncates toward zero: for a non-negative dividend the quotient is the floor, for a negative one it rounds up |
| Common.KeysWithAdd | kernel/membrane_drm.c:172-199 | installing a new descriptor on a file adds exactly one table entry holding that file |
| Common.KeysWithRemove | kernel/membrane_gem.c:17-28 | removing an entry lowers the count of entries holding its file by exactly one |
| Connector.ModeTimings | kernel/membrane_drv.c:37-66 | the reported mode has the written width and height, the fixed porches (+60/+74/+244, +32/+40/+224), strictly increasing sync timings, and a clock of htotal*vtotal*r/1000 truncated |
| Connector.ClockPositive | kernel/membrane_drv.c:37-66 | any non-negative size with a positive refresh gives a positive pixel clock |
| Connector.GetModes | kernel/membrane_drv.c:37-66 | one preferred driver mode at the current size when the mode is created, none otherwise; the count returned equals the modes added |
| Connector.ModeValid | kernel/membrane_drv.c:68-74 | every mode is accepted |
| Connector.Detect | kernel/membrane_drv.c:81-86 | the connector is always connected |
| Connector.DefaultModeWithinLimits | kernel/membrane_drv.c:109-118 | the 1920x1080@60 default fits within the 0..4096 mode limits, with a 169311 kHz clock |
| KernelRelay.PutBounded | kernel/membrane_drv.h:18 | a put into the 64-entry FIFO never grows it past 64 and either appends or drops the message |
| KernelRelay.PutAllKeepsOrder | kernel/membrane_drv.h:18 | a run of puts keeps the queued messages in order and appends exactly the prefix that fits |
| KernelRelay.ApplyConfig | kernel/membrane_rw.c:42-75 | a written config becomes the current mode, and a hotplug is due exactly when the mode changed |
| KernelRelay.ApplyConfigIdempotent | kernel/membrane_rw.c:42-75 | writing the same config twice leaves the mode as after the first write and raises no second hotplug |
| KernelRelay.HotplugReportsWrittenMode | kernel/membrane_rw.c:42-75 | after a hotplug, the connector's only mode has the width and height the daemon wrote |
| KernelRelay.CoveredTable | kernel/membrane_drm.c:144-170 | a file referenced from the descriptor table holds at least one reference |
| KernelRelay.CoveredPush | kernel/membrane_drm.c:144-170 | parking a file in the fd FIFO while taking a reference keeps every file covered |
| KernelRelay.CoveredPop | kernel/membrane_drm.c:172-199 | the oldest parked file holds a reference, and dropping it when the pop fails keeps every file covered |
| KernelRelay.CoveredInstall | kernel/membrane_drm.c:172-199 | handing the parked reference to a new descriptor keeps every file covered |
| KernelRelay.Device.constructor | kernel/membrane_drv.c:99-118 | both FIFOs start empty and the mode starts at 1920x1080@60 |
| KernelRelay.Device.CrtcEnable | kernel/membrane_drm.c:40-58 | queues a DPMS-on message (dpms 0) if the FIFO has room and wakes the readers; nothing else changes |
| KernelRelay.Device.CrtcDisable | kernel/membrane_drm.c:60-78 | queues a DPMS-off message (dpms 1) if the FIFO has room and wakes the readers |
| KernelRelay.Device.SetConfig | kernel/membrane_drm.c:101-112 | queues DPMS off when there is no framebuffer or no connector, DPMS on otherwise, and returns 0 |
| KernelRelay.Device.PageFlip | kernel/membrane_drm.c:114-142 | sends the vblank event when one was requested, then queues the PRESENT_UPDATED message with present 1 and wakes the readers |
| KernelRelay.Device.PrimeFdToHandle | kernel/membrane_drm.c:144-170 | a bad descriptor gives -EBADF, a full fd FIFO gives -ENOSPC, otherwise the file is appended to the FIFO with one more reference; reference counts stay covered |
| KernelRelay.Device.PopFd | kernel/membrane_drm.c:172-199 | an empty FIFO gives -EAGAIN; otherwise the oldest file leaves the FIFO and is either installed at the new descriptor or, when no descriptor is available, released with one fewer reference |
| KernelRelay.Device.Read | kernel/membrane_rw.c:10-40 | a short buffer gives -EINVAL; with a message queued the oldest is dequeued and returned (or -EFAULT when the copy faults) whatever signal is pending; on an empty FIFO a signal gives -ERESTARTSYS and a drained wake-up 0, both leaving the FIFO as it was |
| KernelRelay.Device.Write | kernel/membrane_rw.c:42-75 | a wrong length gives -EINVAL, a faulting copy -EFAULT; otherwise the mode becomes the written one and a hotplug is raised exactly when it changed |
| KernelRelay.EnableThenRead | kernel/membrane_rw.c:10-40 | a CRTC enable on an idle device is what the next read returns, even with a signal pending |
| Gem.HoldingAdd | kernel/membrane_gem.c:30-80 | a new GEM object on a file adds one holder of that file |
| Gem.HoldingRemove | kernel/membrane_gem.c:17-28 | removing a GEM object removes one holder of its file |
| Gem.CoveredTable | kernel/membrane_gem.c:30-80 | a file referenced from the descriptor table holds at least one reference |
| Gem.CoveredAdd | kernel/membrane_gem.c:30-80 | a new object taking a reference on its file keeps every file covered |
| Gem.CoveredObject | kernel/membrane_gem.c:17-28 | the file of a live GEM object holds at least one reference |
| Gem.CoveredRemove | kernel/membrane_gem.c:17-28 | removing an object and putting its file keeps every file covered |
| Gem.GemDevice.constructor | kernel/membrane_gem.c:30-80 | a device starts with no GEM objects over a covered descriptor table |
| Gem.GemDevice.PrimeFdToHandle | kernel/membrane_gem.c:30-80 | -EBADF, -ENOMEM, the init error and the handle-create error each leave objects and counts as they were; on success a fresh positive handle holds the file with one more reference |
| Gem.GemDevice.GemFreeObject | kernel/membrane_gem.c:17-28 | freeing an object puts its file, if it has one, and changes nothing else |
| Gem.GemDevice.HandleClose | kernel/membrane_gem.c:17-28 | an unknown handle gives -EINVAL; a known one is removed and its file loses one reference, which it had |
| Gem.GemDevice.HandleToFile | kernel/membrane_gem.c:89-120 | an unknown handle gives no file; a known one returns its file with an extra reference taken |
| Gem.GemDevice.PrimeHandleToFd | kernel/membrane_gem.c:82-87 | export is not supported: -ENOSYS |
| Gem.ImportThenLookup | kernel/membrane_gem.c:30-120 | importing a descriptor and looking its handle up yields the same file with two more references |
| Daemon.RefreshRate | daemon/main.c:53-71 | the refresh sent is the rounded rate when the vsync period is positive, 60 otherwise, and always positive |
| Daemon.SendCfg | daemon/main.c:53-71 | the config carries the display's width and height, a positive refresh and a zero reserved word |
| Daemon.SentConfigGivesUsableMode | daemon/main.c:53-71 | the mode the kernel adopts from the daemon's config has a positive pixel clock |
| Daemon.PresentBlock | daemon/main.c:112-137 | validate comes before accept, which is issued exactly when changes were reported, then set client target and present; the fence is closed exactly when it is valid |
| Daemon.MetaInts | daemon/main.c:87-101 | the metadata integers are as many as requested, zero-filled past what the file supplied |
| Daemon.HandleLayout | daemon/main.c:73-110 | a handle is built exactly when there are two or more descriptors and a non-empty metadata file; it has all descriptors but the last, size/4 integers, and carries both in order |
| Daemon.MetaReadOverrun | daemon/main.c:87-92 | a 6-byte metadata file makes the read ask for more bytes than the buffer holds |
| Daemon.MetaReadLength | daemon/main.c:87-92 | the bounded read asks for exactly the buffer's bytes, within 4 of the file size |
| Daemon.ImportBufferFromFds | daemon/main.c:73-110 | the imported handle is the one HandleLayout describes, or none when gralloc refuses it |
| Daemon.ReadMetaInts | daemon/main.c:87-92 | with the read bounded by MetaReadLength, the metadata buffer holds `size / sizeof(int)` integers: those the file supplies, zero past them |
| Daemon.HandleData | daemon/main.c:94-101 | the new handle's data is the plane descriptors followed by the metadata integers |
| Daemon.TotalLengthFront | daemon/main.c:198-243 | the records' total length is the first record's length plus the rest |
| Daemon.RecordAtBoundary | daemon/main.c:198-243 | the record found at the sum of the earlier lengths is the k-th record |
| Daemon.EventLoopPass | daemon/main.c:198-243 | walking the read buffer by record length visits every record and collects exactly the present requests |
| Daemon.TotalLengthPrefix | daemon/main.c:198-243 | every record starts strictly inside the buffer |
| Daemon.PresentsComeFromPresentEvents | daemon/main.c:198-243 | every present request comes from a membrane event flagged present, with its id and descriptor count |
| Daemon.FdRequestsStopAtFailure | daemon/main.c:152-164 | the GET_PRESENT_FD requests issued, one per descriptor index including the metadata one, are the leading part of the full run: one past the served ones when a fetch fails, and all of them exactly when at most the last fetch fails |
| Daemon.Presenter.constructor | daemon/rwb.cpp:18-28 | no requests, closes or composer calls yet, properties unset |
| Daemon.Presenter.RwbNew | daemon/rwb.cpp:30-45 | wraps the handle once the properties are set and takes one buffer reference |
| Daemon.Presenter.HandlePresent | daemon/main.c:139-196 | more than 8 descriptors is refused untouched; otherwise one descriptor request per index until the first failure, every descriptor obtained is closed, and a buffer is produced exactly when all were obtained, there are at least two and the handle imported |
| Daemon.Presenter.CloseAll | daemon/main.c:139-196 | closes the first n descriptors in order and nothing else |
| Daemon.Presenter.ServePresent | daemon/main.c:139-243 | the composer sees the present block exactly when the handle was produced, and the buffer reference is dropped again |
| EglWindow.CachedFdsOverrun | eglplatform/eglplatform_membrane.cpp:94-96 | a five-descriptor gralloc buffer makes m_num_fds exceed the four cached slots |
| EglWindow.CachedCount | eglplatform/eglplatform_membrane.cpp:94-96 | the cached count is at most 4, at most gralloc's, and equal to gralloc's when that fits |
| EglWindow.OpenFds | eglplatform/eglplatform_membrane.cpp:126-131 | each descriptor closed is one of the cached ones and non-negative, and there are no more of them than cached slots |
| EglWindow.WindowBuffer.constructor | eglplatform/eglplatform_membrane.cpp:72-77 | a new buffer is free, with no wl_buffer, no descriptors and no metadata fd |
| EglWindow.WindowBuffer.Allocate | eglplatform/eglplatform_membrane.cpp:79-119 | records size, format and usage; a failed gralloc allocation leaves the descriptors; otherwise caches the clamped descriptor count, and a failed metadata write closes the memfd and fails |
| EglWindow.WindowBuffer.CacheFds | eglplatform/eglplatform_membrane.cpp:95-97 | the first n slots receive the duplicated descriptors and the rest are kept |
| EglWindow.WindowBuffer.CloseCachedFds | eglplatform/eglplatform_membrane.cpp:126-131 | closes exactly the open cached descriptors and marks their slots -1 |
| EglWindow.WindowBuffer.Release | eglplatform/eglplatform_membrane.cpp:121-142 | destroys the wl_buffer, closes the open cached descriptors and the metadata fd, releases the handle, and leaves the buffer free and empty |
| EglWindow.Flip | eglplatform/eglplatform_membrane.cpp:364-374 | a damage rectangle keeps x, width and height, and its bottom edge mirrors the top edge |
| EglWindow.FlipInvolution | eglplatform/eglplatform_membrane.cpp:364-374 | flipping twice gives back the rectangle |
| EglWindow.DamageRequests | eglplatform/eglplatform_membrane.cpp:364-374 | one damage request per rectangle, each flipped |
| EglWindow.SwapDamage | eglplatform/eglplatform_membrane.cpp:357-381 | one request per rectangle, each flipped against the attached height, when there are rectangles and the height recorded at the last attach is positive, full damage when attaching without them, nothing otherwise |
| EglWindow.CountQueued | eglplatform/eglplatform_membrane.cpp:287-294 | the queue length never exceeds the buffers counted |
| EglWindow.CountQueuedAfterQueue | eglplatform/eglplatform_membrane.cpp:233-266 | queueing an unqueued buffer lengthens the queue by one |
| EglWindow.CountQueuedAfterFree | eglplatform/eglplatform_membrane.cpp:329-338 | freeing a queued buffer shortens the queue by one |
| EglWindow.FirstMatchFrom | eglplatform/eglplatform_membrane.cpp:329-338 | finds the first buffer from a start index that carries the wl_buffer, or proves none does |
| EglWindow.FirstMatch | eglplatform/eglplatform_membrane.cpp:329-338 | the first of the counted buffers carrying the wl_buffer, or none |
| EglWindow.ParamsRequests | eglplatform/eglplatform_membrane.cpp:443-472 | once the params object is created: create_params, one plane per cached descriptor at four bytes per pixel, the metadata fd as the next plane with pitch 1 when there is one, create_immed at the buffer size in ARGB8888, then the params object destroyed |
| EglWindow.NativeWindow.constructor | eglplatform/eglplatform_membrane.cpp:161-184 | three buffers counted, RGBA8888, the window usage, swap interval 1, no queued buffer, damage or attached height, no fence closed, the flag cleared; all four buffers free; the first three hold exactly what their allocations gave at the window size (`Holds`) and the views are those allocations over four empty buffers, the fourth staying empty; the Wayland log is exactly the three allocations' requests, with nothing destroyed |
| EglWindow.NativeWindow.FirstAllocation | eglplatform/eglplatform_membrane.cpp:183 | the constructor's reallocateBuffers over four empty buffers: the first three allocated (`Holds`), nothing destroyed, the log exactly the three allocations' requests, all free, the settings kept |
| EglWindow.NativeWindow.CreateWlBuffer | eglplatform/eglplatform_membrane.cpp:443-472 | when params are created, emits the params requests for the buffer and records the created wl_buffer |
| EglWindow.DestroyRequestsExact | eglplatform/eglplatform_membrane.cpp:414-419 | the destroy requests name exactly the wl_buffers present, and nothing else is requested |
| EglWindow.ReleaseClosesHeld | eglplatform/eglplatform_membrane.cpp:121-142 | a release keeps what was closed before and closes every open cached descriptor and an open metadata fd, and nothing that is not one of them |
| EglWindow.AllocRequestsShape | eglplatform/eglplatform_membrane.cpp:443-472 | one allocation's requests add only its cached duplicates and its metadata fd as planes, and otherwise only create and destroy a params object and create a `w` x `h` ARGB8888 wl_buffer |
| EglWindow.AllocLogPlanes | eglplatform/eglplatform_membrane.cpp:434-439 | across a reallocation's log every plane is a descriptor one of the allocations cached or its metadata fd, every creation is `w` x `h` ARGB8888, and nothing else is sent but params creation and destruction |
| EglWindow.AllocatedHolds | eglplatform/eglplatform_membrane.cpp:79-119 | allocating a released buffer leaves it holding exactly the allocation: the geometry, gralloc's handle and stride, the cached duplicates, the metadata fd and the created wl_buffer |
| EglWindow.RebuiltHolds | eglplatform/eglplatform_membrane.cpp:432-440 | after a rebuild each counted buffer holds its allocation, having closed what it held plus an unwritable memfd, and each other buffer is its release |
| EglWindow.RebuiltFromEmpty | eglplatform/eglplatform_membrane.cpp:161-184 | rebuilding four empty buffers destroys nothing, and the first three then hold their allocations |
| EglWindow.NativeWindow.DestroyBuffers | eglplatform/eglplatform_membrane.cpp:414-419 | forgets the queued buffer; each of the four buffers becomes its release (`ReleasedView`: no wl_buffer, handle or descriptor, its open cached descriptors and metadata fd appended to what it closed) and its open descriptor slots hold -1; all free; one wl_buffer destroy request per buffer that held one, in buffer order |
| EglWindow.NativeWindow.ReleaseAt | eglplatform/eglplatform_membrane.cpp:416-418 | buffer i becomes its release, with its open slots reset to -1, and is free; its wl_buffer's destroy request is appended when it held one; no other buffer changes |
| EglWindow.NativeWindow.AllocateBuffer | eglplatform/eglplatform_membrane.cpp:435-439 | a released buffer becomes its allocation at the window's format and usage (`AllocatedView`, `AllocatedFds`) and is free; the log gains exactly that allocation's createWlBuffer requests; no other buffer changes |
| EglWindow.NativeWindow.Reallocate | eglplatform/eglplatform_membrane.cpp:421-441 | when the first buffer is counted, has a handle and matches size, format and usage, nothing but the flag changes; otherwise `Rebuilt`: no queued buffer, all free, every buffer released and the counted ones then allocated, and the log extended by the destroy requests followed by exactly the allocations' requests; the settings are kept and the flag cleared either way |
| EglWindow.NativeWindow.Rebuild | eglplatform/eglplatform_membrane.cpp:432-440 | `Rebuilt`: no queued buffer, all free, views and slots those of releasing all four and allocating the counted ones, the log extended by the destroy requests and then the allocations' requests; the flag cleared |
| EglWindow.NativeWindow.AllocateAll | eglplatform/eglplatform_membrane.cpp:434-439 | over released buffers: the counted ones become their allocations, the rest are unchanged, all free, and the log gains exactly the allocations' requests in buffer order |
| EglWindow.NativeWindow.FindFree | eglplatform/eglplatform_membrane.cpp:209-217 | the first free counted buffer, or proof that none is free |
| EglWindow.NativeWindow.DequeueBuffer | eglplatform/eglplatform_membrane.cpp:203-231 | the settings are kept; without a reallocation (flag clear, or the first buffer reusable) the views, slots, queue and log are unchanged and the first free counted buffer is dequeued with no fence, or a wait or a dispatch failure is reported exactly when none is free; after a reallocation the queued buffer is forgotten, the views and slots are those of releasing all four and allocating the counted ones, the log gains the destroy requests and then exactly the allocations' requests, and buffer 0 is dequeued exactly when the count is positive |
| EglWindow.NativeWindow.TakeFree | eglplatform/eglplatform_membrane.cpp:209-228 | only busy states change: the first free counted buffer becomes dequeued, exactly when one is free; on an all-free window that is buffer 0 whenever the count is positive |
| EglWindow.NativeWindow.QueueBuffer | eglplatform/eglplatform_membrane.cpp:233-266 | closes the fence, creates the wl_buffer if missing, and queues the buffer; when it cannot be created the buffer is freed and -1 returned, the params requests having been sent exactly when the params object was created |
| EglWindow.NativeWindow.CancelBuffer | eglplatform/eglplatform_membrane.cpp:268-275 | closes the fence and frees the buffer |
| EglWindow.NativeWindow.HandleRelease | eglplatform/eglplatform_membrane.cpp:329-338 | frees the first counted buffer with that wl_buffer and unqueues it if it was queued; no match changes nothing; only busy states and the queued buffer ever change |
| EglWindow.NativeWindow.QueueLength | eglplatform/eglplatform_membrane.cpp:287-294 | counts the queued buffers among the first bufferCount |
| EglWindow.NativeWindow.SetBuffersFormat | eglplatform/eglplatform_membrane.cpp:298-302 | sets the format and schedules reallocation when it changed |
| EglWindow.NativeWindow.SetUsage | eglplatform/eglplatform_membrane.cpp:310-317 | ORs in render and texture usage and schedules reallocation when the result changed |
| EglWindow.NativeWindow.SetBufferCount | eglplatform/eglplatform_membrane.cpp:319-327 | clamps the count to 4 and schedules reallocation when it changed |
| EglWindow.NativeWindow.Resize | eglplatform/eglplatform_membrane.cpp:474-478 | a resize schedules reallocation |
| EglWindow.NativeWindow.SetSwapInterval | eglplatform/eglplatform_membrane.cpp:197-200 | stores the interval and returns 0 |
| EglWindow.NativeWindow.PrepareSwap | eglplatform/eglplatform_membrane.cpp:390-393 | keeps the damage rectangles for the next swap |
| EglWindow.NativeWindow.FinishSwap | eglplatform/eglplatform_membrane.cpp:340-388 | requests a frame callback when the interval is positive, attaches the queued buffer, sends the damage, commits, and clears the queued buffer and damage |
| EglWindow.FlippedDamage | eglplatform/eglplatform_membrane.cpp:364-374 | the damage loop emits exactly DamageRequests |
| EglWindow.QueueingLengthensQueue | eglplatform/eglplatform_membrane.cpp:233-294 | queueing a dequeued counted buffer raises queueLength by one |
| EglDmaBuf.PlaneOfKey | eglplatform/eglplatform_membrane.cpp:607-631 | only the four plane-fd keys name a plane, numbered 0..3 |
| EglDmaBuf.PlaneFdKey | eglplatform/eglplatform_membrane.cpp:607-631 | each plane's key maps back to that plane and is none of NONE, WIDTH, HEIGHT, PITCH |
| EglDmaBuf.ParseFrom | eglplatform/eglplatform_membrane.cpp:607-631 | parsing only adds planes, never drops one |
| EglDmaBuf.ParseAttribs | eglplatform/eglplatform_membrane.cpp:607-631 | the attribute loop computes Parse of the list, with plane indices in 0..3 |
| EglDmaBuf.PlaneAttribs | eglplatform/eglplatform_membrane.cpp:607-631 | one key/value pair per plane descriptor |
| EglDmaBuf.Numbered | eglplatform/eglplatform_membrane.cpp:607-631 | the j-th descriptor becomes plane from+j |
| EglDmaBuf.ParsePlanes | eglplatform/eglplatform_membrane.cpp:607-631 | parsing a run of plane-fd pairs appends the numbered planes |
| EglDmaBuf.ImportAttribsTerminated | eglplatform/eglplatform_membrane.cpp:607-631 | an import list ends with NONE at a key position |
| EglDmaBuf.ParseImportAttribs | eglplatform/eglplatform_membrane.cpp:607-631 | parsing an import list gives back its width, height, pitch and numbered planes |
| EglDmaBuf.Insert | eglplatform/eglplatform_membrane.cpp:633 | inserting into sorted planes keeps them sorted and is a permutation with the new plane added |
| EglDmaBuf.SortPlanes | eglplatform/eglplatform_membrane.cpp:633 | the planes come out sorted by index and are a permutation of the input |
| EglDmaBuf.SortAscending | eglplatform/eglplatform_membrane.cpp:633 | already ascending planes are left as they are |
| EglDmaBuf.SortNumbered | eglplatform/eglplatform_membrane.cpp:633 | planes listed in order are not reordered |
| EglDmaBuf.FdsOfNumbered | eglplatform/eglplatform_membrane.cpp:648-652 | numbering descriptors as planes and reading the planes' descriptors gives the descriptors back |
| EglDmaBuf.BuildHandle | eglplatform/eglplatform_membrane.cpp:648-652 | the handle holds the descriptors and then the integers, with matching counts |
| EglDmaBuf.PassthroughImage | eglplatform/eglplatform_membrane.cpp:600-675 | the method computes Passthrough: no image without attributes, planes, metadata, a full read or a successful import |
| EglDmaBuf.PassthroughLayout | eglplatform/eglplatform_membrane.cpp:635-668 | an imported image is an Android native buffer whose handle holds every plane but the last and size/4 metadata integers |
| EglDmaBuf.CompositorParams | eglplatform/eglplatform_membrane.cpp:449-463 | a compositor reads createWlBuffer's requests as the cached descriptors and the metadata file numbered as planes 0.., with plane 0's pitch four bytes per pixel (1, the file's, when nothing is cached), and rejects four cached descriptors plus the file |
| EglDmaBuf.ImportRoundTrip | eglplatform/eglplatform_membrane.cpp:602-668 | an import list with up to three descriptors and a metadata file after them, read in full, passes through exactly those descriptors, the file's integers, the size and pitch/4 |
| EglDmaBuf.WindowBufferRoundTrip | eglplatform/eglplatform_membrane.cpp:443-472 | a compositor importing a buffer made by createWlBuffer gets an image exactly when at most three descriptors are cached, and it carries the same descriptors, metadata integers and size, and the buffer's stride, or 0 when no descriptor is cached |
| EglDmaBuf.QueryDmaBufModifiers | eglplatform/eglplatform_membrane.cpp:712-728 | succeeds exactly for ARGB8888 and XRGB8888, reporting one modifier, linear, and not external-only |
| EglDmaBuf.QueryDmaBufFormats | eglplatform/eglplatform_membrane.cpp:730-745 | fails without a count pointer; otherwise reports two formats and fills up to max of them |
| EglDmaBuf.QueriesAgree | eglplatform/eglplatform_membrane.cpp:712-745 | the formats listed are exactly those whose modifiers query succeeds |
| EglDmaBuf.GetConfigAttrib | eglplatform/eglplatform_membrane.cpp:747-755 | answers only the native visual id, with ARGB8888 |

## Findings

| source | as written | input that shows it | evidently intended | confidence | as-written member | corrected member |
|---|---|---|---|---|---|---|
| eglplatform/eglplatform_membrane.cpp:94-96 | `m_num_fds` takes gralloc's descriptor count unclamped. The copy loop stops at 4, but the loops in `release` (line 126) and `createWlBuffer` (line 449) run to `m_num_fds` over the four-entry `m_cached_fds` | a gralloc buffer with 5 descriptors | store the clamped count, `min(numFds, 4)` | not executed | EglWindow.CachedFdsOverrun | EglWindow.CachedCount |
| daemon/main.c:87-92 | the metadata buffer holds `st_size / sizeof(int)` integers, but `read` asks for `st_size` bytes | a 6-byte metadata file: a 4-byte buffer, a 6-byte read | read `num_ints * sizeof(int)` bytes | not executed | Daemon.MetaReadOverrun | Daemon.MetaReadLength |

## Left out

- I/O, the clock and the outside world are parameters.
  - Outcomes become boolean or `Option` parameters: wait interruptions, `copy_to_user`/`copy_from_user` faults, allocation failures, `fstat`/`read`/`lseek` results, gralloc allocation and import, and `wl_display_dispatch`.
  - Values from outside are parameters too: the composer's validate results, descriptor numbers returned by `dup`/`get_unused_fd`, and Wayland object ids.
- Locking, wait queues, `kfifo` concurrency and the daemon's blocking `poll` are not modelled; every operation is atomic.
- `membrane_load` (kernel/membrane_drv.c:104-107) initialises only `fd_fifo`; the event `kfifo`, `rw_lock` and `rw_wq` are never initialised. KernelRelay.Device.constructor starts the event FIFO empty, which rests on the `DECLARE_KFIFO` at kernel/membrane_drv.h:27 and the zeroed device allocation (kernel/membrane_drv.c:217); the uninitialised lock and wait queue are outside the model.
- Fixed-width arithmetic is unbounded here: `int32` fields of the config, the `uint32` flags and the pixel clock product do not wrap. A mode large enough to overflow `htotal*vtotal*r` is outside the model.
- The daemon's `lround(1e9 / vsyncPeriod)` is a floating-point parameter (`rounded`); only the fallback to 60 is modelled.
- Framebuffer creation, cursor and gamma callbacks, the planes' atomic helpers, probe, load, remove, module init and exit are not modelled beyond the defaults and limits they set.
- The `gbm/` backend and `include/log.h` are not part of this model.
- The header defines no `MEMBRANE_PRESENT_UPDATED` flag, no `present` fields in `membrane_k2u_msg`, and no `drm_membrane_event` record, although `daemon/main.c` uses all three. The model gives messages the flag and takes the event record's fields from their use in the daemon.
- The daemon uses two ioctls that the driver's table (kernel/membrane_drv.h:63-66) does not define.
  - It sends its config with `DRM_IOCTL_MEMBRANE_CONFIG`. The model delivers that config through the driver's `write` path, which applies a `membrane_u2k_cfg`.
  - It fetches each present's descriptors with `DRM_IOCTL_MEMBRANE_GET_PRESENT_FD`. The model records these as (present id, index) requests, and the descriptors they return are parameters.
- Daemon.EventLoopPass: requires every record length to be positive. A zero-length record would make the loop in `membrane_event_loop` spin forever on the same offset.
- Daemon.ImportBufferFromFds: the width, height, stride, format and usage arguments of `import_buffer_from_fds` are unused by the source and are left out.
- The rwb internals are not modelled: `rwb_destroy`, `rwb_acquire`, the native buffer's `incRef`/`decRef` and `rwb_set_allocated`. The buffer reference count is a counter.
- The EGL window's sync fences are descriptor numbers that get closed. The frame-callback wait in `finishSwap` is not modelled: the wait loop, its dispatch and the frame callback being cleared.
- Descriptors duplicated with `dup` are represented by the values the caller supplies. The metadata file's contents on the window side are a written/not-written flag.
- `eglQueryString`, `lockBuffer`, `setBuffersDimensions` and the window and buffer destructors are not modelled. `setBuffersDimensions` ignores its arguments.
- EglWindow.NativeWindow.QueueBuffer: the source aborts through `membrane_assert(mnb->getBusy() == 1)` (eglplatform/eglplatform_membrane.cpp:256, with `abort()` in include/log.h:19-25) when a buffer with a wl_buffer is not dequeued. The model's `requires` stands in for that abort, so the aborting path is not modelled.
- EglWindow.ParamsRequests: each plane names the cached descriptor. The source adds a `dup` of it and closes the copy right after the request; the copy refers to the same file.
- EglDmaBuf.CompositorAttribs: the compositor that turns `zwp_linux_buffer_params_v1` requests into an `EGL_LINUX_DMA_BUF_EXT` import is outside the repository. The model writes only the keys the passthrough reads (size, plane 0's pitch, plane descriptors) and accepts planes numbered 0, 1, ... in order, at most four.
- EglDmaBuf.PassthroughImage: `fstat`, the metadata `read` and the gralloc import are parameters. The metadata descriptor is not closed by the source, and the model does not track it.
- EglDmaBuf.ParseAttribs: requires the attribute list to end with `EGL_NONE` at a key position, as EGL requires of callers. The source walks the list until that terminator.
