# The VFS open path, modelled in Dafny

This project models the open path of a teaching kernel's virtual file
system (`kernel/fs/open.c`). The path turns a file name and a set of open
flags into a file descriptor of the current process. It has three parts:

- `get_empty_fd` finds the lowest free slot of the process's descriptor
  table `p_files[0..NFILES)`, or reports `-EMFILE`.
- `do_open` checks the flags and derives the access mode `f_mode` of the
  new open-file handle with a first-match cascade of seven rules.
- `do_open` also orchestrates the open. It checks the name length, finds
  a slot, checks the flags, gets a handle from `fget`, binds it into the
  slot, and resolves the name with `open_namev`. It undoes the binding
  and releases what it acquired when resolution fails or when a directory
  is opened for writing.

Files:

- `fs_types.dfy` (module `FsTypes`) holds the flags, limits, error
  numbers, the access modes and vnode kinds, and the classes `Vnode`,
  `File` (file_t) and `Process` (proc_t, whose `p_files` is an
  `array<File?>` of length `NFILES`).
- `fs_env.dfy` (module `FsEnv`) holds the class `Kernel`. It owns the
  current process and the collaborators `fget`, `fput`, `vput` and
  `open_namev` as methods with contracts. It also keeps ghost bookkeeping:
  - `live` is the set of handles handed out by `fget` and not yet freed;
  - `held` is the multiset of vnode references handed out by
    `open_namev` and not yet put;
  - `trace` is every collaborator call, in order.

  This bookkeeping makes "no leak" and "called exactly once" statable.
- `open.dfy` (module `Open`) holds `get_empty_fd` as a loop proved
  against the first-fit function `FirstEmpty`, the flag check, the mode
  cascade, and `do_open` as imperative methods over the table and the
  handle.
- `open_props.dfy` (module `OpenProps`) holds properties that relate
  several calls:
  - a bit-by-bit characterisation of the mode cascade;
  - how the next descriptor moves when a slot is filled or emptied;
  - the descriptors that successive opens hand out.

Assumptions about values defined in headers outside this model:

- `O_RDONLY = 0`, `O_WRONLY = 0x1`, `O_RDWR = 0x2`, `O_CREAT = 0x100`,
  `O_APPEND = 0x400`.
- `NFILES = 32` and `NAME_LEN = 28`.
- The usual error numbers, returned negated.
- `open_namev` returns 0 with a vnode, or a negative error number with no
  vnode.

Only `O_RDONLY = 0`, the other four flags being distinct single bits and
the error numbers being positive matter to the proofs. A flag word is modelled as the set of positions of
its one bits: bitwise OR is union and `(oflags & b) == b` is
`b <= oflags`.

Two consequences of the code as written are stated as lemmas:

- With `O_RDONLY = 0`, the first flag check (line 106) never rejects.
  Only the "both `O_WRONLY` and `O_RDWR`" check does, which is what
  `AccessFlagsOk` states.
- The cascade is first-match, and several accepted requests do not get
  the access their bits name. `ModeFallThrough` records four of them:
  - `O_RDONLY|O_APPEND` gets read-write access, without append;
  - `O_WRONLY|O_APPEND` gets read-write access, without append;
  - `O_WRONLY|O_CREAT|O_APPEND` gets write access, without append;
  - `O_RDWR|O_CREAT|O_APPEND` gets read-write access, without append.

  The comment above `do_open` (lines 59-61) says the mode is the OR of
  the read, write and append modes the flags ask for, so these cases
  depart from it. The model keeps the cascade exactly as written.

The order of the checks in `do_open` is: name length, then a free slot
(`get_empty_fd`), then the flags, then `fget`. So a full table reports
`-EMFILE` even when the flags are also invalid. The slot is written only
after `fget` succeeds (line 122), so the `-EMFILE`, `-EINVAL` and
`-ENOMEM` paths have nothing to undo.

## Model

| member | source | states |
|---|---|---|
| Open.FirstEmpty | kernel/fs/open.c:40-52 | the result is -EMFILE exactly when every slot is occupied; otherwise it is an empty slot and every lower slot is occupied (the lowest free descriptor) |
| Open.GetEmptyFd | kernel/fs/open.c:40-52 | the upward scan returns the lowest empty slot, or -EMFILE when the table is full, and writes nothing to the table |
| Open.AccessFlagsOk | kernel/fs/open.c:106-114 | the two flag checks accept the flags exactly when O_WRONLY and O_RDWR are not both set |
| Open.WantsWrite | kernel/fs/open.c:158 | the directory test reads the raw flags (O_WRONLY or O_RDWR set), not the derived mode; a request it counts as writing always gets write access from the cascade |
| Open.ModeOf | kernel/fs/open.c:124-145 | every handle gets read or write access, and append access only together with read and write |
| Open.Unbind | kernel/fs/open.c:152-153 | emptying the slot and putting the sole reference restores the slot to null and frees the handle, holding no extra vnode reference; fput is called once |
| Open.UnbindAndPut | kernel/fs/open.c:159-161 | the directory rollback empties the slot, frees the handle and releases the one vnode reference; fput and vput are each called once, in that order |
| Open.BindAndResolve | kernel/fs/open.c:122-171 | once a handle exists, open_namev is called with the name, the raw flags and a null base; when open_namev succeeds and the node is not a directory opened with a write bit, fd is returned; an open_namev error is returned unchanged after one fput; a directory opened with a write bit gives -EISDIR after one fput and one vput; any failure leaves the table, the live handles and the held vnodes as before; success binds the handle at fd with the cascade's mode, position 0, one reference and the resolved vnode |
| Open.DoOpen | kernel/fs/open.c:90-172 | errors win in the order name length, full table, both write bits, fget failure, and none of these calls a collaborator except the failing fget; open_namev is called with the file name, the raw flags and a null base directory; when fget and open_namev succeed and the node is not a directory opened for writing, the first-fit descriptor is returned; every error leaves the table, the live handles and the held vnode references exactly as before; success returns the first-fit descriptor, fills only that slot with a fresh handle and keeps one new handle and one new vnode reference |
| FsEnv.Kernel.Fget | kernel/fs/open.c:116-120 | fget(-1) yields null or a fresh handle with one reference, position 0 and no vnode, which becomes live |
| FsEnv.Kernel.OpenNamev | kernel/fs/open.c:147-149 | open_namev returns 0 with a vnode the caller now holds, or a negative error and no vnode; the call, with its name, flags and base directory, is recorded |
| FsEnv.Kernel.Fput | kernel/fs/open.c:153 | fput drops one reference, and the last one frees the handle and puts its vnode |
| FsEnv.Kernel.Vput | kernel/fs/open.c:161 | vput releases one held vnode reference |
| OpenProps.ModeByBits | kernel/fs/open.c:124-145 | an independent bit-by-bit reading of the access mode; on its own it always grants read or write, and append only with both |
| OpenProps.ModeOfByBits | kernel/fs/open.c:124-145 | for every accepted request, the first-match cascade gives write access unless the flags are exactly O_RDONLY or O_CREAT, withholds read access only for O_WRONLY alone or with O_CREAT, and gives append access only for O_RDWR with O_APPEND and without O_CREAT |
| OpenProps.ModeGrantsRequest | kernel/fs/open.c:124-145 | an accepted O_WRONLY request gets write access, an O_RDWR request gets read and write access, and O_RDONLY gets read access only |
| OpenProps.ModeFallThrough | kernel/fs/open.c:124-145 | O_RDONLY or O_WRONLY with O_APPEND gets read-write access without append; O_WRONLY with O_CREAT and O_APPEND gets write access without append; O_RDWR with O_CREAT and O_APPEND gets read-write access without append |
| OpenProps.FirstEmptyUnique | kernel/fs/open.c:40-52 | any empty slot with every lower slot occupied is the one get_empty_fd returns |
| OpenProps.FillRaises | kernel/fs/open.c:122 | after the returned slot is filled, the next free descriptor is strictly higher or the table is full |
| OpenProps.ReleaseReuses | kernel/fs/open.c:40-52 | after a slot is emptied, it is the next descriptor unless a lower one was already free |
| OpenProps.Step | kernel/fs/open.c:99-122 | the table keeps its size; that the first-fit slot, if there is one, is filled is the definition itself, which OpenRepeatedly relates to DoOpen |
| OpenProps.AfterOpens | kernel/fs/open.c:99-122 | the table after n successive opens keeps its size |
| OpenProps.AfterOpensSnoc | kernel/fs/open.c:99-122 | the table after n + 1 opens is one more open applied to the table after n |
| OpenProps.OpenFds | kernel/fs/open.c:99-122 | n successive opens return n descriptors |
| OpenProps.OpenFdsAt | kernel/fs/open.c:99-122 | the i-th of successive opens returns the first-fit slot of the table the i earlier opens left, whatever opens follow |
| OpenProps.FirstEmptyShape | kernel/fs/open.c:40-52 | the descriptor get_empty_fd returns depends only on which slots are occupied, not on which handles occupy them |
| OpenProps.StepShape | kernel/fs/open.c:122 | filling the first-fit slot of two tables with the same occupied slots leaves them with the same occupied slots, whatever handles are written |
| OpenProps.AfterOpensFilled | kernel/fs/open.c:99-122 | from a table whose first k slots are occupied, i opens leave the first k + i slots occupied, or all of them, and the rest empty |
| OpenProps.OpenFdsFrom | kernel/fs/open.c:99-122 | from a table whose first k slots are occupied, successive opens return k, k+1, ... up to the table size, then -EMFILE |
| OpenProps.OpenFdsFromEmpty | kernel/fs/open.c:99-122 | from an empty table, successive opens return 0, 1, ..., NFILES-1 in order, and every later open returns -EMFILE |
| OpenProps.OpenStep | kernel/fs/open.c:99-122 | one more successful open that fills the first-fit slot of a table shaped like the prediction extends the predicted descriptors by that slot and keeps the table shaped like the prediction after one more open |
| OpenProps.OpenRepeatedly | kernel/fs/open.c:90-172 | calling do_open repeatedly returns exactly the descriptors OpenFds predicts from the starting table, each within the table, and leaves occupied exactly the slots AfterOpens predicts; fewer than n descriptors means the next call failed with last < 0: -ENAMETOOLONG for a long name, -EMFILE when the predicted table was full, -EINVAL for both write bits, and otherwise after calling a collaborator, the last call being an fget that returned null or a rollback's fput or vput |

## Left out

- The `dbg` tracing calls have no effect on behaviour and are not modelled.
- The internals of `open_namev` are not part of this model. These include path walking, creation under `O_CREAT`, mounts and device lookup. Its contract allows any negative error, or success with any vnode.
- The internals of `fget`, `fput` and `vput` are not part of this model. This includes the vnode reference counts they maintain, which the ghost multiset `held` stands in for. `fget`'s argument `-1` is implied.
- The numeric values of the `O_*` flags, `NAME_LEN`, `NFILES` and the error numbers are assumed, as listed above.
- There is no locking or concurrency around `p_files`. The code has none and the path is sequential.
- The file name is a `seq<char>` and `strlen` is its length. C string termination is not modelled.
- `f_mode` is a set of access modes rather than an `int` of `FMODE_*` bits, and `vn_mode` is reduced to the file type `S_ISDIR` tests.
- `do_open` is one function in the source. The model splits it into `DoOpen` (lines 95-120), `BindAndResolve` (lines 122-171), `Unbind` and `UnbindAndPut` (the two rollbacks) to keep each proof small. The statements and their order are unchanged.
- OpenProps.OpenFds: the ghost function fills every chosen slot with the same handle. It is about descriptor numbers only, not handle identity; `OpenRepeatedly` relates it to real opens through the occupied slots alone.
- OpenProps.OpenRepeatedly: stops at the first failed open and does not record it in `fds`; the error is returned in `last`. When that open reached a collaborator, the contract names the kind of its last call, not the error value, which `DoOpen` states per outcome.
