/**
 * Properties of the open path that relate several calls or characterise
 * a definition of the model independently: the access mode read off the
 * individual flag bits, the first-fit discipline of descriptor numbers,
 * and what repeated opens hand out.
 */
module OpenProps {
  import opened FsTypes
  import opened FsEnv
  import opened Open

  /**
   * The access mode of an accepted request, bit by bit rather than rule
   * by rule: write access unless the request is O_RDONLY or
   * O_CREAT|O_RDONLY exactly; no read access only for O_WRONLY alone or
   * O_WRONLY with O_CREAT; append access only for O_RDWR|O_APPEND without
   * O_CREAT.
   */
  function ModeByBits(oflags: OpenFlags): (m: set<AccessMode>)
    ensures Read in m || Write in m
    ensures Append in m ==> Read in m && Write in m
  {
    (if oflags == O_RDONLY || oflags == O_CREAT + O_RDONLY then {} else {Write}) +
    (if HasAll(oflags, O_WRONLY) && (oflags == O_WRONLY || HasAll(oflags, O_CREAT)) then {} else {Read}) +
    (if HasAll(oflags, O_RDWR) && HasAll(oflags, O_APPEND) && !HasAll(oflags, O_CREAT) then {Append} else {})
  }

  /** For every request do_open accepts, the first-match cascade agrees with the bitwise reading. */
  lemma ModeOfByBits(oflags: OpenFlags)
    requires AccessFlagsOk(oflags)
    ensures ModeOf(oflags) == ModeByBits(oflags)
  {
  }

  /** The handle always carries the access the request names. */
  lemma ModeGrantsRequest(oflags: OpenFlags)
    requires AccessFlagsOk(oflags)
    ensures HasAll(oflags, O_WRONLY) ==> Write in ModeOf(oflags)
    ensures HasAll(oflags, O_RDWR) ==> Read in ModeOf(oflags) && Write in ModeOf(oflags)
    ensures oflags == O_RDONLY ==> ModeOf(oflags) == {Read}
  {
  }

  /**
   * Accepted requests the cascade treats differently from what their bits
   * ask for. O_RDONLY|O_APPEND and O_WRONLY|O_APPEND both fall through to
   * read-write access, without append; O_WRONLY|O_CREAT|O_APPEND and
   * O_RDWR|O_CREAT|O_APPEND match a creation rule first and lose append.
   */
  lemma ModeFallThrough()
    ensures ModeOf(O_RDONLY + O_APPEND) == {Read, Write}
    ensures ModeOf(O_WRONLY + O_APPEND) == {Read, Write}
    ensures ModeOf(O_WRONLY + O_CREAT + O_APPEND) == {Write}
    ensures ModeOf(O_RDWR + O_CREAT + O_APPEND) == {Read, Write}
  {
  }

  /** At most one index is the lowest empty slot: FirstEmpty is determined by its contract. */
  lemma FirstEmptyUnique(s: seq<File?>, r: int)
    requires 0 <= r < |s| && s[r] == null
    requires forall j :: 0 <= j < r ==> s[j] != null
    ensures FirstEmpty(s) == r
  {
  }

  /** Filling the descriptor do_open returned moves the next descriptor strictly upwards. */
  lemma FillRaises(s: seq<File?>, f: File)
    requires FirstEmpty(s) != -EMFILE
    ensures var t := s[FirstEmpty(s) := f];
            FirstEmpty(t) == -EMFILE || FirstEmpty(s) < FirstEmpty(t)
  {
  }

  /** Emptying slot i (a close) makes i the next descriptor unless a lower one is already free. */
  lemma ReleaseReuses(s: seq<File?>, i: int)
    requires 0 <= i < |s|
    ensures FirstEmpty(s[i := null]) ==
              if FirstEmpty(s) == -EMFILE || i < FirstEmpty(s) then i else FirstEmpty(s)
  {
    var e := FirstEmpty(s);
    if e == -EMFILE || i < e {
      FirstEmptyUnique(s[i := null], i);
    } else {
      FirstEmptyUnique(s[i := null], e);
    }
  }

  /** One successful open on table s: the first-fit slot, if any, now holds f. */
  ghost function Step(s: seq<File?>, f: File): (t: seq<File?>)
    ensures |t| == |s|
  {
    var fd := FirstEmpty(s);
    if fd == -EMFILE then s else s[fd := f]
  }

  /** The table after n successive opens from table s, each filling its first-fit slot with f. */
  ghost function AfterOpens(s: seq<File?>, f: File, n: nat): (t: seq<File?>)
    ensures |t| == |s|
    decreases n
  {
    if n == 0 then s else AfterOpens(Step(s, f), f, n - 1)
  }

  /** The table after n + 1 opens is one more step from the table after n. */
  lemma {:induction false} AfterOpensSnoc(s: seq<File?>, f: File, n: nat)
    ensures AfterOpens(s, f, n + 1) == Step(AfterOpens(s, f, n), f)
    decreases n
  {
    if n > 0 {
      AfterOpensSnoc(Step(s, f), f, n - 1);
    }
  }

  /**
   * The descriptors those n opens return, in order: each is the first-fit
   * slot of the table the earlier opens left.
   */
  ghost function OpenFds(s: seq<File?>, f: File, n: nat): (fds: seq<int>)
    ensures |fds| == n
    decreases n
  {
    if n == 0 then [] else OpenFds(s, f, n - 1) + [FirstEmpty(AfterOpens(s, f, n - 1))]
  }

  /** The i-th open returns the first-fit slot of the table after i opens, however many follow. */
  lemma {:induction false} OpenFdsAt(s: seq<File?>, f: File, n: nat, i: nat)
    requires i < n
    ensures OpenFds(s, f, n)[i] == FirstEmpty(AfterOpens(s, f, i))
    decreases n
  {
    if i < n - 1 {
      OpenFdsAt(s, f, n - 1, i);
    }
  }

  /** Two tables with the same occupied slots. */
  ghost predicate SameShape(a: seq<File?>, b: seq<File?>) {
    |a| == |b| && forall i :: 0 <= i < |a| ==> (a[i] == null <==> b[i] == null)
  }

  /** Which descriptor is next depends only on which slots are occupied. */
  lemma FirstEmptyShape(a: seq<File?>, b: seq<File?>)
    requires SameShape(a, b)
    ensures FirstEmpty(a) == FirstEmpty(b)
  {
    if FirstEmpty(a) != -EMFILE {
      FirstEmptyUnique(b, FirstEmpty(a));
    }
  }

  /** Filling the first-fit slot of two tables with the same occupied slots keeps them alike. */
  lemma StepShape(a: seq<File?>, b: seq<File?>, g: File, f: File)
    requires SameShape(a, b) && FirstEmpty(a) != -EMFILE
    ensures SameShape(a[FirstEmpty(a) := g], Step(b, f))
  {
    FirstEmptyShape(a, b);
  }

  /** Slots below k are occupied and the rest are empty. */
  ghost predicate FilledUpTo(s: seq<File?>, k: nat) {
    k <= |s| &&
    (forall j :: 0 <= j < k ==> s[j] != null) &&
    (forall j :: k <= j < |s| ==> s[j] == null)
  }

  /** From a table filled up to k, i opens fill it up to k + i, or completely. */
  lemma {:induction false} AfterOpensFilled(s: seq<File?>, f: File, k: nat, i: nat)
    requires FilledUpTo(s, k)
    ensures FilledUpTo(AfterOpens(s, f, i), if k + i < |s| then k + i else |s|)
    decreases i
  {
    if i > 0 {
      var k' := k;
      if k < |s| {
        FirstEmptyUnique(s, k);
        k' := k + 1;
      }
      assert FilledUpTo(Step(s, f), k');
      AfterOpensFilled(Step(s, f), f, k', i - 1);
    }
  }

  /** From a table filled up to k, the opens return k, k+1, ... and then -EMFILE. */
  lemma OpenFdsFrom(s: seq<File?>, f: File, n: nat, k: nat)
    requires FilledUpTo(s, k)
    ensures forall i :: 0 <= i < n ==>
              OpenFds(s, f, n)[i] == if k + i < |s| then k + i else -EMFILE
  {
    forall i | 0 <= i < n
      ensures OpenFds(s, f, n)[i] == if k + i < |s| then k + i else -EMFILE
    {
      OpenFdsAt(s, f, n, i);
      AfterOpensFilled(s, f, k, i);
      if k + i < |s| {
        FirstEmptyUnique(AfterOpens(s, f, i), k + i);
      }
    }
  }

  /**
   * Opening from a process with an empty table yields descriptors
   * 0, 1, ..., NFILES - 1 in order, and every open after that fails
   * with -EMFILE.
   */
  lemma OpenFdsFromEmpty(s: seq<File?>, f: File, n: nat)
    requires |s| == NFILES && forall j :: 0 <= j < |s| ==> s[j] == null
    ensures forall i :: 0 <= i < n && i < NFILES ==> OpenFds(s, f, n)[i] == i
    ensures forall i :: NFILES <= i < n ==> OpenFds(s, f, n)[i] == -EMFILE
  {
    OpenFdsFrom(s, f, n, 0);
  }

  /**
   * One more successful open, filling the first-fit slot of a table shaped
   * like the predicted one, extends the predicted descriptors by the slot it
   * filled and keeps the table shaped like the prediction.
   */
  lemma OpenStep(start: seq<File?>, f: File, i: nat, before: seq<File?>, g: File)
    requires SameShape(before, AfterOpens(start, f, i)) && FirstEmpty(before) != -EMFILE
    ensures OpenFds(start, f, i + 1) == OpenFds(start, f, i) + [FirstEmpty(before)]
    ensures SameShape(before[FirstEmpty(before) := g], AfterOpens(start, f, i + 1))
  {
    FirstEmptyShape(before, AfterOpens(start, f, i));
    StepShape(before, AfterOpens(start, f, i), g, f);
    AfterOpensSnoc(start, f, i);
  }

  /**
   * A process calling do_open up to n times, stopping at the first
   * failure, whose error is `last`. The descriptors it gets are those
   * OpenFds predicts from the table it started with, and the table's
   * occupied slots are those AfterOpens predicts (`marker` stands for the
   * handles, whose identity does not matter to descriptor numbers).
   */
  method OpenRepeatedly(k: Kernel, filename: string, oflags: OpenFlags, n: nat, ghost marker: File)
    returns (fds: seq<int>, last: int)
    requires k.Valid()
    modifies k, k.curproc.p_files
    ensures k.Valid()
    ensures |fds| <= n && forall i :: 0 <= i < |fds| ==> 0 <= fds[i] < NFILES
    ensures fds == OpenFds(old(k.curproc.p_files[..]), marker, |fds|)
    ensures SameShape(k.curproc.p_files[..], AfterOpens(old(k.curproc.p_files[..]), marker, |fds|))
    // Fewer than n descriptors: the next do_open failed, with -EMFILE when
    // the predicted table was full and the name short enough.
    ensures |fds| < n ==> last < 0
    ensures |fds| < n && |filename| > NAME_LEN ==> last == -ENAMETOOLONG
    ensures |fds| < n && |filename| <= NAME_LEN &&
            FirstEmpty(AfterOpens(old(k.curproc.p_files[..]), marker, |fds|)) == -EMFILE ==>
              last == -EMFILE
    ensures |fds| < n && |filename| <= NAME_LEN &&
            FirstEmpty(AfterOpens(old(k.curproc.p_files[..]), marker, |fds|)) != -EMFILE && !AccessFlagsOk(oflags) ==>
              last == -EINVAL
    // Otherwise the failing do_open called a collaborator, and its last
    // call was an fget that returned null or a rollback's fput or vput.
    ensures |fds| < n && |filename| <= NAME_LEN && AccessFlagsOk(oflags) &&
            FirstEmpty(AfterOpens(old(k.curproc.p_files[..]), marker, |fds|)) != -EMFILE ==>
              |k.trace| > |old(k.trace)| &&
              (k.trace[|k.trace| - 1] == FgetCall(null) || k.trace[|k.trace| - 1].FputCall? ||
               k.trace[|k.trace| - 1].VputCall?)
  {
    ghost var start := k.curproc.p_files[..];
    ghost var tr0 := k.trace;
    fds, last := [], 0;
    while |fds| < n
      invariant k.Valid() && |fds| <= n
      invariant |tr0| <= |k.trace|
      invariant forall i :: 0 <= i < |fds| ==> 0 <= fds[i] < NFILES
      invariant fds == OpenFds(start, marker, |fds|)
      invariant SameShape(k.curproc.p_files[..], AfterOpens(start, marker, |fds|))
      decreases n - |fds|
    {
      ghost var before := k.curproc.p_files[..];
      ghost var predicted := AfterOpens(start, marker, |fds|);
      FirstEmptyShape(before, predicted);
      ghost var tr := k.trace;
      var r, calls := DoOpen(k, filename, oflags);
      if r < 0 {
        last := r;
        assert k.curproc.p_files[..] == before;
        if |filename| > NAME_LEN || FirstEmpty(predicted) == -EMFILE || !AccessFlagsOk(oflags) {
          assert calls == [];
        } else {
          assert calls != [] && k.trace == tr + calls;
          assert k.trace[|k.trace| - 1] == calls[|calls| - 1];
        }
        return;
      }
      ghost var g := k.curproc.p_files[r];
      assert r == FirstEmpty(before) && g != null;
      assert k.curproc.p_files[..] == before[r := g];
      OpenStep(start, marker, |fds|, before, g);
      fds := fds + [r];
    }
  }
}
