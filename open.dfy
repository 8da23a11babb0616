/**
 * The VFS open path: finding the lowest free descriptor (get_empty_fd),
 * validating the open flags, deriving the access mode of the new handle,
 * and do_open itself, which acquires a handle and a vnode and undoes
 * every acquisition when a later step fails.
 */
module Open {
  import opened FsTypes
  import opened FsEnv

  /**
   * The descriptor get_empty_fd picks from a table: the lowest empty slot,
   * or -EMFILE when there is none.
   */
  function FirstEmpty(s: seq<File?>): (r: int)
    ensures r == -EMFILE <==> forall j :: 0 <= j < |s| ==> s[j] != null
    ensures r != -EMFILE ==> 0 <= r < |s| && s[r] == null && forall j :: 0 <= j < r ==> s[j] != null
  {
    if s == [] then -EMFILE
    else if s[0] == null then 0
    else
      var rest := FirstEmpty(s[1..]);
      if rest == -EMFILE then -EMFILE else rest + 1
  }

  /** get_empty_fd: scans p_files upwards and stops at the first empty slot. */
  method GetEmptyFd(p: Process) returns (fd: int)
    requires p.p_files.Length == NFILES
    ensures fd == FirstEmpty(p.p_files[..])
  {
    fd := 0;
    while fd < NFILES
      invariant 0 <= fd <= NFILES
      invariant forall j :: 0 <= j < fd ==> p.p_files[j] != null
    {
      if p.p_files[fd] == null {
        return;
      }
      fd := fd + 1;
    }
    fd := -EMFILE;
  }

  /**
   * The two flag checks of do_open: at least one access bit must match
   * (never false while O_RDONLY is 0), and O_WRONLY and O_RDWR must not
   * both be set.
   */
  predicate AccessFlagsOk(oflags: OpenFlags): (ok: bool)
    ensures ok <==> !(HasAll(oflags, O_WRONLY) && HasAll(oflags, O_RDWR))
  {
    (HasAll(oflags, O_RDWR) || HasAll(oflags, O_RDONLY) || HasAll(oflags, O_WRONLY)) &&
    !HasAll(oflags, O_WRONLY + O_RDWR)
  }

  /**
   * The access mode do_open gives the new handle: the first rule that
   * matches decides. Every handle can be read or written, and append
   * access only comes with both.
   */
  function ModeOf(oflags: OpenFlags): (m: set<AccessMode>)
    ensures Read in m || Write in m
    ensures Append in m ==> Read in m && Write in m
  {
    if oflags == O_RDONLY then {Read}
    else if oflags == O_WRONLY then {Write}
    else if HasAll(oflags, O_CREAT + O_RDWR) then {Read, Write}
    else if HasAll(oflags, O_CREAT + O_RDONLY) && oflags == O_CREAT + O_RDONLY then {Read}
    else if HasAll(oflags, O_CREAT + O_WRONLY) then {Write}
    else if HasAll(oflags, O_RDWR + O_APPEND) then {Read, Write, Append}
    else {Read, Write}
  }

  /**
   * The request asks for write access: the test do_open makes on the raw
   * flags of a directory. Such a request always gets write access, but not
   * conversely (O_RDONLY|O_APPEND gets it too).
   */
  predicate WantsWrite(oflags: OpenFlags): (w: bool)
    ensures w ==> Write in ModeOf(oflags)
  {
    HasAll(oflags, O_WRONLY) || HasAll(oflags, O_RDWR)
  }

  /** The calls of an open that got a handle from fget and then asked open_namev for the name. */
  ghost predicate Resolved(calls: seq<Call>) {
    |calls| >= 2 && calls[0].FgetCall? && calls[0].handle != null && calls[1].OpenNamevCall?
  }

  /**
   * The rollback do_open performs twice: empty slot `fd` again, then drop
   * the only reference to the handle it held, which frees the handle.
   */
  method Unbind(k: Kernel, fd: int, file: File)
    requires k.Valid()
    requires 0 <= fd < NFILES && k.curproc.p_files[fd] == file
    requires forall i :: 0 <= i < NFILES && i != fd ==> k.curproc.p_files[i] != file
    requires file.f_refcount == 1 && file.f_vnode == null
    modifies k, k.curproc.p_files, file
    ensures k.Valid()
    ensures k.curproc.p_files[..] == old(k.curproc.p_files[..])[fd := null]
    ensures k.live == old(k.live) - {file} && k.held == old(k.held)
    ensures k.trace == old(k.trace) + [FputCall(file)]
  {
    k.curproc.p_files[fd] := null;
    k.Fput(file);
  }

  /**
   * The rollback for a directory opened for writing: Unbind, then put the
   * vnode reference open_namev handed out.
   */
  method UnbindAndPut(k: Kernel, fd: int, file: File, node: Vnode)
    requires k.Valid()
    requires 0 <= fd < NFILES && k.curproc.p_files[fd] == file
    requires forall i :: 0 <= i < NFILES && i != fd ==> k.curproc.p_files[i] != file
    requires file.f_refcount == 1 && file.f_vnode == null && node in k.held
    modifies k, k.curproc.p_files, file
    ensures k.Valid()
    ensures k.curproc.p_files[..] == old(k.curproc.p_files[..])[fd := null]
    ensures k.live == old(k.live) - {file} && k.held == old(k.held) - multiset{node}
    ensures k.trace == old(k.trace) + [FputCall(file), VputCall(node)]
  {
    Unbind(k, fd, file);
    k.Vput(node);
  }

  /**
   * do_open from the moment fget has handed out `file`: bind it into slot
   * `fd`, set its mode, resolve the name, and either finish the handle or
   * undo the binding and release what was acquired. `calls` lists the
   * collaborator calls made, in order.
   */
  method BindAndResolve(k: Kernel, fd: int, file: File, filename: string, oflags: OpenFlags)
    returns (r: int, ghost calls: seq<Call>)
    requires k.Valid()
    requires 0 <= fd < NFILES && k.curproc.p_files[fd] == null
    requires forall i :: 0 <= i < NFILES ==> k.curproc.p_files[i] != file
    requires file in k.live && file.f_refcount == 1 && file.f_vnode == null
    modifies k, k.curproc.p_files, file
    ensures k.Valid()
    ensures k.trace == old(k.trace) + calls
    ensures |calls| >= 1 && calls[0].OpenNamevCall? && calls[0].name == filename && calls[0].oflags == oflags &&
            calls[0].base == null
    ensures calls[0].error != 0 ==> r == calls[0].error && |calls| == 2 && calls[1] == FputCall(file)
    ensures calls[0].error == 0 ==> calls[0].node != null
    ensures calls[0].error == 0 && calls[0].node.vn_mode == Directory && WantsWrite(oflags) ==>
              r == -EISDIR && |calls| == 3 && calls[1] == FputCall(file) && calls[2] == VputCall(calls[0].node)
    ensures calls[0].error == 0 && !(calls[0].node.vn_mode == Directory && WantsWrite(oflags)) ==> r == fd
    ensures r < 0 ==>
              k.curproc.p_files[..] == old(k.curproc.p_files[..]) &&
              k.live == old(k.live) - {file} && k.held == old(k.held)
    ensures r >= 0 ==>
              r == fd && |calls| == 1 && calls[0].error == 0 &&
              !(calls[0].node.vn_mode == Directory && WantsWrite(oflags)) &&
              k.curproc.p_files[..] == old(k.curproc.p_files[..])[fd := file] &&
              file.f_mode == ModeOf(oflags) && file.f_pos == 0 && file.f_refcount == 1 &&
              file.f_vnode == calls[0].node &&
              k.live == old(k.live) && k.held == old(k.held) + multiset{calls[0].node}
  {
    k.curproc.p_files[fd] := file;
    file.f_mode := ModeOf(oflags);

    var base: Vnode? := null;
    var error, resVnode := k.OpenNamev(filename, oflags, base);
    calls := [OpenNamevCall(filename, oflags, base, error, resVnode)];
    if error != 0 {
      Unbind(k, fd, file);
      return error, calls + [FputCall(file)];
    }
    if resVnode.vn_mode == Directory && WantsWrite(oflags) {
      UnbindAndPut(k, fd, file, resVnode);
      return -EISDIR, calls + [FputCall(file), VputCall(resVnode)];
    }

    file.f_pos := 0;
    file.f_refcount := 1;
    file.f_vnode := resVnode;
    r := fd;
  }

  /**
   * do_open: returns the new descriptor, or a negative error number with
   * the descriptor table, the live handles and the held vnode references
   * exactly as they were. `calls` lists the collaborator calls made, in
   * order.
   */
  method DoOpen(k: Kernel, filename: string, oflags: OpenFlags) returns (r: int, ghost calls: seq<Call>)
    requires k.Valid()
    modifies k, k.curproc.p_files
    ensures k.Valid()
    ensures k.trace == old(k.trace) + calls
    // The order in which errors win.
    ensures |filename| > NAME_LEN ==> r == -ENAMETOOLONG && calls == []
    ensures |filename| <= NAME_LEN && FirstEmpty(old(k.curproc.p_files[..])) == -EMFILE ==>
              r == -EMFILE && calls == []
    ensures |filename| <= NAME_LEN && FirstEmpty(old(k.curproc.p_files[..])) != -EMFILE && !AccessFlagsOk(oflags) ==>
              r == -EINVAL && calls == []
    ensures |filename| <= NAME_LEN && FirstEmpty(old(k.curproc.p_files[..])) != -EMFILE && AccessFlagsOk(oflags) ==>
              calls != [] && calls[0].FgetCall?
    // fget failed: nothing was acquired.
    ensures calls != [] && calls[0] == FgetCall(null) ==> r == -ENOMEM && calls == [FgetCall(null)]
    // fget succeeded: open_namev resolves the name with the raw flags, from no base directory.
    ensures calls != [] && calls[0].FgetCall? && calls[0].handle != null ==>
              Resolved(calls) && calls[1].name == filename && calls[1].oflags == oflags && calls[1].base == null
    ensures Resolved(calls) && calls[1].error == 0 ==> calls[1].node != null
    // open_namev failed: the handle is put once and its error is returned.
    ensures Resolved(calls) && calls[1].error != 0 ==>
              r == calls[1].error && |calls| == 3 && calls[2] == FputCall(calls[0].handle)
    // A directory opened for writing: the handle and the vnode are put once each.
    ensures Resolved(calls) && calls[1].error == 0 && calls[1].node != null &&
            calls[1].node.vn_mode == Directory && WantsWrite(oflags) ==>
              r == -EISDIR && |calls| == 4 && calls[2] == FputCall(calls[0].handle) && calls[3] == VputCall(calls[1].node)
    // Every step succeeded: the first-fit descriptor is returned.
    ensures Resolved(calls) && calls[1].error == 0 && calls[1].node != null &&
            !(calls[1].node.vn_mode == Directory && WantsWrite(oflags)) ==>
              r == FirstEmpty(old(k.curproc.p_files[..]))
    // Failure leaves no trace in the table, the handles or the vnode references.
    ensures r < 0 ==>
              k.curproc.p_files[..] == old(k.curproc.p_files[..]) && k.live == old(k.live) && k.held == old(k.held)
    // Success: the first-fit slot now holds the new handle and nothing else changed.
    ensures r >= 0 ==>
              r == FirstEmpty(old(k.curproc.p_files[..])) && 0 <= r < NFILES &&
              Resolved(calls) && |calls| == 2 && calls[1].error == 0 && calls[1].node != null &&
              !(calls[1].node.vn_mode == Directory && WantsWrite(oflags))
    ensures r >= 0 ==>
              var f := k.curproc.p_files[r];
              f == calls[0].handle && fresh(f) &&
              k.curproc.p_files[..] == old(k.curproc.p_files[..])[r := f] &&
              f.f_mode == ModeOf(oflags) && f.f_pos == 0 && f.f_refcount == 1 && f.f_vnode == calls[1].node &&
              k.live == old(k.live) + {f} && k.held == old(k.held) + multiset{calls[1].node}
  {
    if |filename| > NAME_LEN {
      return -ENAMETOOLONG, [];
    }
    var fd := GetEmptyFd(k.curproc);
    if fd == -EMFILE {
      return -EMFILE, [];
    }
    if !(HasAll(oflags, O_RDWR) || HasAll(oflags, O_RDONLY) || HasAll(oflags, O_WRONLY)) {
      return -EINVAL, [];
    }
    if HasAll(oflags, O_WRONLY + O_RDWR) {
      return -EINVAL, [];
    }

    var file := k.Fget();
    if file == null {
      return -ENOMEM, [FgetCall(null)];
    }
    ghost var rest;
    r, rest := BindAndResolve(k, fd, file, filename, oflags);
    calls := [FgetCall(file)] + rest;
  }
}
