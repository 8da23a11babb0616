/**
 * The kernel objects the VFS open path works on: open flags, the access
 * mode of an open file, error numbers, vnodes, open-file handles (file_t)
 * and the process that owns the descriptor table (proc_t).
 *
 * The numeric values of the flags, limits and error numbers come from
 * headers that are not part of this model; the values below are the usual
 * ones. The proofs depend only on O_RDONLY being 0, on the other four
 * flags being distinct single bits, and on the error numbers being
 * positive.
 */
module FsTypes {

  /**
   * Open flags are a C `int` used as a bit mask; a value is modelled by the
   * set of positions of its one bits. Bitwise OR is set union, and
   * `oflags & bits == bits` is `bits <= oflags`.
   */
  type OpenFlags = s: set<nat> | forall b :: b in s ==> b < 32

  const O_RDONLY: OpenFlags := {}     // 0x000
  const O_WRONLY: OpenFlags := {0}    // 0x001
  const O_RDWR: OpenFlags := {1}      // 0x002
  const O_CREAT: OpenFlags := {8}     // 0x100
  const O_APPEND: OpenFlags := {10}   // 0x400

  /** Size of a process's descriptor table. */
  const NFILES: int := 32
  /** Longest file name do_open accepts. */
  const NAME_LEN: int := 28

  /** Error numbers; the kernel returns them negated. */
  const EINVAL: int := 22
  const EMFILE: int := 24
  const ENOMEM: int := 12
  const ENAMETOOLONG: int := 36
  const EISDIR: int := 21

  /** `oflags & bits == bits`: every bit of `bits` is set in `oflags`. */
  predicate HasAll(oflags: OpenFlags, bits: OpenFlags) {
    bits <= oflags
  }

  /** One of FMODE_READ, FMODE_WRITE, FMODE_APPEND; f_mode is a set of them. */
  datatype AccessMode = Read | Write | Append

  /** The file type recorded in a vnode's vn_mode; S_ISDIR tests for Directory. */
  datatype NodeKind = Regular | Directory | CharDevice | BlockDevice

  /** A resolved filesystem object. Its reference count is kept by the Kernel's bookkeeping. */
  class Vnode {
    const vn_mode: NodeKind

    constructor (kind: NodeKind)
      ensures vn_mode == kind
    {
      vn_mode := kind;
    }
  }

  /** An open-file handle (file_t). */
  class File {
    var f_mode: set<AccessMode>
    var f_pos: int
    var f_refcount: int
    var f_vnode: Vnode?

    /** A zero-filled handle with one reference, as fget hands it out. */
    constructor ()
      ensures f_mode == {} && f_pos == 0 && f_refcount == 1 && f_vnode == null
    {
      f_mode := {};
      f_pos := 0;
      f_refcount := 1;
      f_vnode := null;
    }
  }

  /** A process (proc_t), reduced to its descriptor table p_files. */
  class Process {
    const p_files: array<File?>

    constructor ()
      ensures p_files.Length == NFILES && fresh(p_files)
      ensures forall i :: 0 <= i < NFILES ==> p_files[i] == null
    {
      p_files := new File?[NFILES](_ => null);
    }
  }
}
