/**
 * What the open path calls but does not own: the current process, the
 * file-handle allocator (fget/fput), path resolution (open_namev) and the
 * vnode release (vput). Their implementations are not part of this model;
 * each is a method whose contract is all the open path may rely on, and
 * whose body only makes the choices the contract leaves open.
 *
 * Ghost bookkeeping makes leaks statable:
 *   live  - handles obtained from fget and not yet freed by fput,
 *   held  - vnode references obtained from open_namev and not yet put,
 *   trace - every call into these collaborators, in order.
 */
module FsEnv {
  import opened FsTypes

  /** One call into a collaborator, with what it returned. */
  datatype Call =
    | FgetCall(handle: File?)
    | OpenNamevCall(name: string, oflags: OpenFlags, base: Vnode?, error: int, node: Vnode?)
    | FputCall(file: File)
    | VputCall(vnode: Vnode)

  /** Every occupied slot of a descriptor table names a handle of `live`. */
  ghost predicate SlotsLive(table: seq<File?>, live: set<File>) {
    forall i :: 0 <= i < |table| && table[i] != null ==> table[i] in live
  }

  /** No handle of `handles` has a zero reference count. */
  ghost predicate RefsPositive(handles: set<File>)
    reads handles
  {
    forall f :: f in handles ==> f.f_refcount > 0
  }

  class Kernel {
    /** The process on whose behalf the system call runs. */
    const curproc: Process
    ghost var live: set<File>
    ghost var held: multiset<Vnode>
    ghost var trace: seq<Call>

    /**
     * The descriptor table has NFILES slots, every occupied slot names a
     * live handle, and no live handle has a zero reference count.
     */
    ghost predicate Valid()
      reads this, curproc, curproc.p_files, live
    {
      curproc.p_files.Length == NFILES &&
      SlotsLive(curproc.p_files[..], live) &&
      RefsPositive(live)
    }

    constructor (p: Process)
      requires p.p_files.Length == NFILES
      requires forall i :: 0 <= i < NFILES ==> p.p_files[i] == null
      ensures Valid() && curproc == p
      ensures live == {} && held == multiset{} && trace == []
    {
      curproc := p;
      live := {};
      held := multiset{};
      trace := [];
    }

    /** fget(-1): a fresh handle with one reference, or null when memory is exhausted. */
    method Fget() returns (f: File?)
      requires Valid()
      modifies this
      ensures Valid()
      ensures f != null ==> fresh(f) && f !in old(live) && f.f_refcount == 1 && f.f_pos == 0 && f.f_vnode == null
      ensures live == if f == null then old(live) else old(live) + {f}
      ensures held == old(held)
      ensures trace == old(trace) + [FgetCall(f)]
    {
      var exhausted: bool :| true;
      if exhausted {
        f := null;
      } else {
        f := new File();
        live := live + {f};
      }
      trace := trace + [FgetCall(f)];
    }

    /**
     * fput: drops one reference; the last one frees the handle and puts the
     * vnode the handle holds, if any.
     */
    method Fput(f: File)
      requires Valid()
      requires f.f_refcount > 0
      requires f.f_refcount == 1 ==> forall i :: 0 <= i < NFILES ==> curproc.p_files[i] != f
      modifies this, f
      ensures Valid()
      ensures f.f_refcount == old(f.f_refcount) - 1
      ensures f.f_mode == old(f.f_mode) && f.f_pos == old(f.f_pos) && f.f_vnode == old(f.f_vnode)
      ensures live == if f.f_refcount == 0 then old(live) - {f} else old(live)
      ensures held == if f.f_refcount == 0 && f.f_vnode != null then old(held) - multiset{f.f_vnode} else old(held)
      ensures trace == old(trace) + [FputCall(f)]
    {
      f.f_refcount := f.f_refcount - 1;
      if f.f_refcount == 0 {
        live := live - {f};
        if f.f_vnode != null {
          held := held - multiset{f.f_vnode};
        }
      }
      trace := trace + [FputCall(f)];
    }

    /** vput: releases one vnode reference the caller holds. */
    method Vput(v: Vnode)
      requires Valid()
      requires v in held
      modifies this
      ensures Valid()
      ensures live == old(live)
      ensures held == old(held) - multiset{v}
      ensures trace == old(trace) + [VputCall(v)]
    {
      held := held - multiset{v};
      trace := trace + [VputCall(v)];
    }

    /**
     * open_namev: resolves `name` (creating it when O_CREAT asks for it) and
     * hands the caller one reference to the vnode, or fails with a negative
     * error number (ENAMETOOLONG, ENOENT, ENXIO, ...) and holds nothing.
     */
    method OpenNamev(name: string, oflags: OpenFlags, base: Vnode?) returns (error: int, node: Vnode?)
      requires Valid()
      modifies this
      ensures Valid()
      ensures error <= 0
      ensures error == 0 <==> node != null
      ensures live == old(live)
      ensures held == if error == 0 then old(held) + multiset{node} else old(held)
      ensures trace == old(trace) + [OpenNamevCall(name, oflags, base, error, node)]
    {
      error :| error <= 0;
      if error == 0 {
        var kind: NodeKind :| true;
        node := new Vnode(kind);
        held := held + multiset{node};
      } else {
        node := null;
      }
      trace := trace + [OpenNamevCall(name, oflags, base, error, node)];
    }
  }
}
