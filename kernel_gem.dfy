/** GEM objects backed by imported dma-buf files (kernel/membrane_gem.c). Importing a
    descriptor takes one reference to its file and stores it in a new GEM object reached
    through a new handle; every failure unwinds what was acquired. Looking a handle up
    for its file hands out one extra file reference; freeing the object drops the stored
    one.

    The ledger is abstract: object allocation, initialisation and handle creation are
    outcomes given as parameters, the calling process's descriptor table and file
    reference counts are fields, and each object is reached through exactly one handle
    (the only way this driver creates objects). */
module Gem {
  import opened Common

  type Handle = nat

  /** struct membrane_gem_object: the stored dma-buf file and the object's reference
      count. */
  datatype GemObject = GemObject(file: Option<FileRef>, refcount: nat)

  /** The handles whose object stores a reference to `f`. */
  ghost function Holding(objects: map<Handle, GemObject>, f: FileRef): set<Handle>
  {
    set h | h in objects && objects[h].file == Some(f)
  }

  /** A new object adds one holder of its file and none of any other file. */
  lemma HoldingAdd(objects: map<Handle, GemObject>, h: Handle, o: GemObject, f: FileRef)
    requires h !in objects
    ensures |Holding(objects[h := o], f)| == |Holding(objects, f)| + (if o.file == Some(f) then 1 else 0)
  {
    if o.file == Some(f) {
      assert Holding(objects[h := o], f) == Holding(objects, f) + {h};
    } else {
      assert Holding(objects[h := o], f) == Holding(objects, f);
    }
  }

  /** Removing an object removes one holder of its file and none of any other file. */
  lemma HoldingRemove(objects: map<Handle, GemObject>, h: Handle, f: FileRef)
    requires h in objects
    ensures |Holding(objects - {h}, f)| == |Holding(objects, f)| - (if objects[h].file == Some(f) then 1 else 0)
  {
    if objects[h].file == Some(f) {
      assert Holding(objects, f) == Holding(objects - {h}, f) + {h};
    } else {
      assert Holding(objects - {h}, f) == Holding(objects, f);
    }
  }

  /** The reference count of `f` in `refs`; files without an entry have none. */
  function RefOf(refs: map<FileRef, nat>, f: FileRef): nat
  {
    if f in refs then refs[f] else 0
  }

  /** References to `f` held by descriptors of the table and by objects. */
  ghost function HeldIn(table: map<int, FileRef>, objects: map<Handle, GemObject>, f: FileRef): nat
  {
    |KeysWith(table, f)| + |Holding(objects, f)|
  }

  /** No file has fewer references than holders. */
  ghost predicate Covered(table: map<int, FileRef>, objects: map<Handle, GemObject>, refs: map<FileRef, nat>)
  {
    forall f: FileRef :: HeldIn(table, objects, f) <= RefOf(refs, f)
  }

  /** A file behind a descriptor has at least one reference. */
  lemma CoveredTable(table: map<int, FileRef>, objects: map<Handle, GemObject>, refs: map<FileRef, nat>, fd: int)
    requires Covered(table, objects, refs) && fd in table
    ensures table[fd] in refs && refs[table[fd]] >= 1
  {
    var f := table[fd];
    assert fd in KeysWith(table, f);
    assert HeldIn(table, objects, f) <= RefOf(refs, f);
  }

  /** A new object storing a file, with one more reference to that file, keeps every
      file covered. */
  lemma CoveredAdd(table: map<int, FileRef>, objects: map<Handle, GemObject>, refs: map<FileRef, nat>,
                   h: Handle, file: FileRef)
    requires Covered(table, objects, refs) && h !in objects
    ensures Covered(table, objects[h := GemObject(Some(file), 1)], refs[file := RefOf(refs, file) + 1])
  {
    var objects' := objects[h := GemObject(Some(file), 1)];
    var refs' := refs[file := RefOf(refs, file) + 1];
    forall g: FileRef
      ensures HeldIn(table, objects', g) <= RefOf(refs', g)
    {
      assert HeldIn(table, objects, g) <= RefOf(refs, g);
      HoldingAdd(objects, h, GemObject(Some(file), 1), g);
    }
  }

  /** An object that stores a file holds a reference to it. */
  lemma CoveredObject(table: map<int, FileRef>, objects: map<Handle, GemObject>, refs: map<FileRef, nat>, h: Handle)
    requires Covered(table, objects, refs) && h in objects && objects[h].file.Some?
    ensures RefOf(refs, objects[h].file.value) >= 1
  {
    var f := objects[h].file.value;
    assert h in Holding(objects, f);
    assert HeldIn(table, objects, f) <= RefOf(refs, f);
  }

  /** Removing an object and dropping the reference it stores keeps every file
      covered. */
  lemma CoveredRemove(table: map<int, FileRef>, objects: map<Handle, GemObject>, refs: map<FileRef, nat>, h: Handle)
    requires Covered(table, objects, refs) && h in objects
    ensures objects[h].file.None? ==> Covered(table, objects - {h}, refs)
    ensures objects[h].file.Some? ==>
      var f := objects[h].file.value;
      RefOf(refs, f) >= 1 && Covered(table, objects - {h}, refs[f := RefOf(refs, f) - 1])
  {
    var refs' := refs;
    if objects[h].file.Some? {
      CoveredObject(table, objects, refs, h);
      var f := objects[h].file.value;
      refs' := refs[f := RefOf(refs, f) - 1];
    }
    forall g: FileRef
      ensures HeldIn(table, objects - {h}, g) <= RefOf(refs', g)
    {
      assert HeldIn(table, objects, g) <= RefOf(refs, g);
      HoldingRemove(objects, h, g);
    }
  }

  class GemDevice {
    var fdTable: map<int, FileRef>        // descriptor table of the calling process
    var fileRefs: map<FileRef, nat>       // reference counts of open files
    var objects: map<Handle, GemObject>   // handle table of the DRM file
    var nextHandle: Handle                // handles are allocated upward from 1

    function FileRefs(f: FileRef): nat
      reads this
    {
      RefOf(fileRefs, f)
    }

    /** Between calls every object is held only by its handle, handles lie below the next
        one to allocate, and no file has fewer references than holders. */
    ghost predicate Valid()
      reads this
    {
      && 0 < nextHandle
      && (forall h :: h in objects ==> 0 < h < nextHandle && objects[h].refcount == 1)
      && Covered(fdTable, objects, fileRefs)
    }

    constructor (table: map<int, FileRef>, refs: map<FileRef, nat>)
      requires Covered(table, map[], refs)
      ensures Valid()
      ensures fdTable == table && fileRefs == refs && objects == map[]
    {
      fdTable, fileRefs, objects, nextHandle := table, refs, map[], 1;
    }

    /** prime_fd_to_handle (GEM version). An unknown descriptor fails with EBADF and
        allocates nothing. After the file reference is taken, a failed allocation (ENOMEM),
        a failed object initialisation (`initErr`) or a failed handle creation
        (`handleErr`) frees the object and drops the reference, leaving every count as it
        was. On success a new handle reaches a new object that stores the file and is held
        by the handle alone, the creator's reference having been dropped. */
    method PrimeFdToHandle(fd: int, allocFails: bool, initErr: int, handleErr: int)
      returns (ret: int, handle: Handle)
      requires Valid()
      requires initErr <= 0 && handleErr <= 0
      modifies this
      ensures Valid()
      ensures fd !in old(fdTable) ==>
        ret == -EBADF && objects == old(objects) && fileRefs == old(fileRefs)
      ensures fd in old(fdTable) && allocFails ==>
        ret == -ENOMEM && objects == old(objects) && fileRefs == old(fileRefs)
      ensures fd in old(fdTable) && !allocFails && initErr != 0 ==>
        ret == initErr && objects == old(objects) && fileRefs == old(fileRefs)
      ensures fd in old(fdTable) && !allocFails && initErr == 0 && handleErr != 0 ==>
        ret == handleErr && objects == old(objects) && fileRefs == old(fileRefs)
      ensures fd in old(fdTable) && !allocFails && initErr == 0 && handleErr == 0 ==>
        var f := old(fdTable)[fd];
        && ret == 0 && handle !in old(objects) && handle > 0
        && objects == old(objects)[handle := GemObject(Some(f), 1)]
        && fileRefs == old(fileRefs)[f := old(FileRefs(f)) + 1]
      ensures fdTable == old(fdTable)
    {
      handle := 0;
      if fd !in fdTable {
        return -EBADF, handle;
      }
      var file := fdTable[fd];
      CoveredTable(fdTable, objects, fileRefs, fd);
      fileRefs := fileRefs[file := FileRefs(file) + 1];       // fget
      if allocFails {
        fileRefs := fileRefs[file := FileRefs(file) - 1];     // fput
        assert fileRefs == old(fileRefs);
        return -ENOMEM, handle;
      }
      var obj := GemObject(None, 1);                          // kzalloc + object init
      if initErr != 0 {
        fileRefs := fileRefs[file := FileRefs(file) - 1];     // kfree, fput
        assert fileRefs == old(fileRefs);
        return initErr, handle;
      }
      obj := obj.(file := Some(file));
      if handleErr != 0 {
        fileRefs := fileRefs[file := FileRefs(file) - 1];     // release, kfree, fput
        assert fileRefs == old(fileRefs);
        return handleErr, handle;
      }
      handle := nextHandle;                                   // drm_gem_handle_create
      nextHandle := nextHandle + 1;
      obj := obj.(refcount := obj.refcount + 1);
      objects := objects[handle := obj];
      objects := objects[handle := obj.(refcount := obj.refcount - 1)];   // drm_gem_object_put
      assert objects == old(objects)[handle := GemObject(Some(file), 1)];
      CoveredAdd(fdTable, old(objects), old(fileRefs), handle, file);
      ret := 0;
    }

    /** gem_free_object for an object whose last reference is gone: drop the stored file
        reference if there is one; the object itself is released and freed. */
    method GemFreeObject(obj: GemObject)
      requires obj.file.Some? ==> FileRefs(obj.file.value) > 0
      modifies this
      ensures obj.file.Some? ==>
        fileRefs == old(fileRefs)[obj.file.value := old(FileRefs(obj.file.value)) - 1]
      ensures obj.file.None? ==> fileRefs == old(fileRefs)
      ensures objects == old(objects) && fdTable == old(fdTable) && nextHandle == old(nextHandle)
    {
      if obj.file.Some? {
        var f := obj.file.value;
        fileRefs := fileRefs[f := FileRefs(f) - 1];           // fput
      }
    }

    /** Closing a handle (done by the DRM core): the handle's reference is the object's
        last, so the object is freed through GemFreeObject. */
    method HandleClose(h: Handle) returns (ret: int)
      requires Valid()
      modifies this
      ensures Valid()
      ensures h !in old(objects) ==> ret == -EINVAL && objects == old(objects) && fileRefs == old(fileRefs)
      ensures h in old(objects) ==>
        && ret == 0 && objects == old(objects) - {h}
        && (old(objects)[h].file.Some? ==>
              var f := old(objects)[h].file.value;
              old(FileRefs(f)) > 0 && fileRefs == old(fileRefs)[f := old(FileRefs(f)) - 1])
        && (old(objects)[h].file.None? ==> fileRefs == old(fileRefs))
      ensures fdTable == old(fdTable)
    {
      if h !in objects {
        return -EINVAL;
      }
      var obj := objects[h];
      CoveredRemove(fdTable, objects, fileRefs, h);
      objects := objects - {h};
      GemFreeObject(obj.(refcount := 0));
      ret := 0;
    }

    /** gem_handle_to_file: an unknown handle yields no file and changes nothing. A known
        handle yields the stored file with one extra reference taken for the caller, or
        no file when none is stored; the reference the lookup took on the object is put
        back either way. */
    method HandleToFile(h: Handle) returns (file: Option<FileRef>)
      requires Valid()
      modifies this
      ensures Valid()
      ensures objects == old(objects) && fdTable == old(fdTable)
      ensures h !in old(objects) ==> file == None && fileRefs == old(fileRefs)
      ensures h in old(objects) ==> file == old(objects)[h].file
      ensures file.Some? ==> fileRefs == old(fileRefs)[file.value := old(FileRefs(file.value)) + 1]
      ensures file.None? ==> fileRefs == old(fileRefs)
    {
      if h !in objects {
        return None;
      }
      var obj := objects[h];
      objects := objects[h := obj.(refcount := obj.refcount + 1)];   // drm_gem_object_lookup
      file := obj.file;
      if file.Some? {
        fileRefs := fileRefs[file.value := FileRefs(file.value) + 1];   // get_file
      }
      objects := objects[h := obj];                                   // drm_gem_object_put
      assert objects == old(objects);
    }

    /** prime_handle_to_fd: exporting is not supported. */
    method PrimeHandleToFd(h: Handle, flags: nat) returns (ret: int)
      ensures ret == -ENOSYS
    {
      ret := -ENOSYS;
    }
  }

  /** Importing a descriptor and looking up the new handle hands back the descriptor's
      own file, with two references added to it: the object's and the caller's. */
  method ImportThenLookup(d: GemDevice, fd: int) returns (file: Option<FileRef>)
    requires d.Valid() && fd in d.fdTable
    modifies d
    ensures d.Valid()
    ensures file == Some(old(d.fdTable[fd]))
    ensures d.FileRefs(file.value) == old(d.FileRefs(d.fdTable[fd])) + 2
  {
    var ret, h := d.PrimeFdToHandle(fd, false, 0, 0);
    file := d.HandleToFile(h);
  }
}
