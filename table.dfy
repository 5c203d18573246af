/**
 * The open-file table of file.c (`ftable.file[NFILE]`) as a sequence of slot
 * records, with allocation, duplication and close as pure transitions. The
 * class in open_files.dfy runs these transitions in place.
 */
module FileTable {
  import opened Wrappers

  /** Identities of the pipe and in-memory inode a slot points to. */
  type PipeId = nat
  type InodeId = nat

  /** The `type` tag of `struct file`. */
  datatype FileType = FdNone | FdPipe | FdInode

  /** One `struct file`: tag, reference count, access modes, payload, offset. */
  datatype File = File(kind: FileType, ref: int, readable: bool, writable: bool,
                       pipe: PipeId, ip: InodeId, off: nat)

  /** A zero-filled slot, as the statically allocated table starts out. */
  const Unused := File(FdNone, 0, false, false, 0, 0, 0)

  /** Calls from this layer into the pipe, inode and log layers. */
  datatype Event =
    | PipeRead(p: PipeId, n: int)
    | PipeWrite(p: PipeId, n: int)
    | PipeClose(p: PipeId, writable: bool)
    | BeginOp
    | EndOp
    | Readi(ip: InodeId, off: nat, n: int)
    | Writei(ip: InodeId, src: int, off: nat, n: int)
    | Stati(ip: InodeId)
    | Iput(ip: InodeId)

  /** Reference counts are never negative, and a slot nobody holds is untyped. */
  predicate WellFormed(s: seq<File>)
  {
    forall i :: 0 <= i < |s| ==> s[i].ref >= 0 && (s[i].ref == 0 ==> s[i].kind == FdNone)
  }

  /** The lowest-index slot with `ref == 0`, or `None` when every slot is held. */
  function FirstFree(s: seq<File>): (r: Option<nat>)
    ensures r.Some? ==> r.value < |s| && s[r.value].ref == 0
    ensures r.Some? ==> forall j :: 0 <= j < r.value ==> s[j].ref != 0
    ensures r.None? <==> forall j :: 0 <= j < |s| ==> s[j].ref != 0
  {
    if |s| == 0 then None
    else if s[0].ref == 0 then Some(0)
    else match FirstFree(s[1..]) {
      case None => None
      case Some(k) => Some(k + 1)
    }
  }

  datatype Allocation = Allocation(table: seq<File>, handle: Option<nat>)

  /**
   * `filealloc`: claim the first free slot by setting its count to 1; every
   * other field of the slot is left for the caller to fill in.
   */
  function Alloc(s: seq<File>): (a: Allocation)
    ensures |a.table| == |s|
    ensures a.handle.None? <==> forall j :: 0 <= j < |s| ==> s[j].ref != 0
    ensures a.handle.None? ==> a.table == s
    ensures a.handle.Some? ==>
              && a.handle.value < |s|
              && s[a.handle.value].ref == 0
              && (forall j :: 0 <= j < a.handle.value ==> s[j].ref != 0)
              && a.table[a.handle.value] == s[a.handle.value].(ref := 1)
              && (forall j :: 0 <= j < |s| && j != a.handle.value ==> a.table[j] == s[j])
    ensures WellFormed(s) ==> WellFormed(a.table)
    ensures WellFormed(s) && a.handle.Some? ==> a.table[a.handle.value].kind == FdNone
  {
    match FirstFree(s)
    case None => Allocation(s, None)
    case Some(h) => Allocation(s[h := s[h].(ref := 1)], Some(h))
  }

  /** `filedup`: one more reference to a held slot; a free slot is a panic. */
  function Dup(s: seq<File>, h: nat): (r: Outcome<seq<File>>)
    requires h < |s|
    ensures r.Panicked? <==> s[h].ref < 1
    ensures r.Panicked? ==> r.msg == "filedup"
    ensures r.Returned? ==>
              && |r.value| == |s|
              && r.value[h] == s[h].(ref := s[h].ref + 1)
              && (forall j :: 0 <= j < |s| && j != h ==> r.value[j] == s[j])
    ensures r.Returned? && WellFormed(s) ==> WellFormed(r.value)
  {
    if s[h].ref < 1 then Panicked("filedup")
    else Returned(s[h := s[h].(ref := s[h].ref + 1)])
  }

  /** The release `fileclose` performs on the snapshot of a slot it freed. */
  function Teardown(ff: File): seq<Event>
  {
    if ff.kind == FdPipe then [PipeClose(ff.pipe, ff.writable)]
    else if ff.kind == FdInode then [BeginOp, Iput(ff.ip), EndOp]
    else []
  }

  /** The table after a close, and the calls made after the lock is released. */
  datatype Closed = Closed(table: seq<File>, teardown: seq<Event>)

  /**
   * `fileclose`: drop one reference; the last one clears the slot and tears
   * down what it held; closing a free slot is a panic.
   */
  function Close(s: seq<File>, h: nat): (r: Outcome<Closed>)
    requires h < |s|
    ensures r.Panicked? <==> s[h].ref < 1
    ensures r.Panicked? ==> r.msg == "fileclose"
    ensures r.Returned? ==>
              && |r.value.table| == |s|
              && r.value.table[h].ref == s[h].ref - 1
              && (forall j :: 0 <= j < |s| && j != h ==> r.value.table[j] == s[j])
    ensures r.Returned? && s[h].ref > 1 ==>
              r.value.table[h] == s[h].(ref := s[h].ref - 1) && r.value.teardown == []
    ensures r.Returned? && s[h].ref == 1 ==>
              r.value.table[h] == s[h].(ref := 0, kind := FdNone) && r.value.teardown == Teardown(s[h])
    ensures r.Returned? && WellFormed(s) ==> WellFormed(r.value.table)
  {
    if s[h].ref < 1 then Panicked("fileclose")
    else if s[h].ref - 1 > 0 then Returned(Closed(s[h := s[h].(ref := s[h].ref - 1)], []))
    else Returned(Closed(s[h := s[h].(ref := 0, kind := FdNone)], Teardown(s[h])))
  }

  /** `k` successive `filedup` calls on slot `h`. */
  function DupTimes(s: seq<File>, h: nat, k: nat): Outcome<seq<File>>
    requires h < |s|
    decreases k
  {
    if k == 0 then Returned(s)
    else match Dup(s, h) {
      case Panicked(m) => Panicked(m)
      case Returned(t) => DupTimes(t, h, k - 1)
    }
  }

  /** `k` successive `fileclose` calls on slot `h`, with all their teardowns in order. */
  function CloseTimes(s: seq<File>, h: nat, k: nat): Outcome<Closed>
    requires h < |s|
    decreases k
  {
    if k == 0 then Returned(Closed(s, []))
    else match Close(s, h) {
      case Panicked(m) => Panicked(m)
      case Returned(c) =>
        match CloseTimes(c.table, h, k - 1) {
          case Panicked(m) => Panicked(m)
          case Returned(c') => Returned(Closed(c'.table, c.teardown + c'.teardown))
        }
    }
  }

  /** On a held slot, `k` duplications succeed and add exactly `k` references. */
  lemma {:induction false} DupTimesAddsReferences(s: seq<File>, h: nat, k: nat)
    requires h < |s| && s[h].ref >= 1
    ensures DupTimes(s, h, k) == Returned(s[h := s[h].(ref := s[h].ref + k)])
    decreases k
  {
    if k > 0 {
      var t := s[h := s[h].(ref := s[h].ref + 1)];
      assert Dup(s, h) == Returned(t);
      DupTimesAddsReferences(t, h, k - 1);
      assert t[h := t[h].(ref := t[h].ref + (k - 1))] == s[h := s[h].(ref := s[h].ref + k)];
    } else {
      assert s[h := s[h].(ref := s[h].ref + k)] == s;
    }
  }

  /** Closing fewer times than the slot is referenced frees nothing and releases nothing. */
  lemma {:induction false} EarlyClosesReleaseNothing(s: seq<File>, h: nat, k: nat)
    requires h < |s| && k < s[h].ref
    ensures CloseTimes(s, h, k) == Returned(Closed(s[h := s[h].(ref := s[h].ref - k)], []))
    decreases k
  {
    if k > 0 {
      var t := s[h := s[h].(ref := s[h].ref - 1)];
      assert Close(s, h) == Returned(Closed(t, []));
      EarlyClosesReleaseNothing(t, h, k - 1);
      var u := t[h := t[h].(ref := t[h].ref - (k - 1))];
      var none: seq<Event> := [];
      assert CloseTimes(s, h, k) == Returned(Closed(u, none + none));
      assert none + none == none;
      assert u == s[h := s[h].(ref := s[h].ref - k)];
      assert t[h := t[h].(ref := t[h].ref - (k - 1))] == s[h := s[h].(ref := s[h].ref - k)];
    } else {
      assert s[h := s[h].(ref := s[h].ref - k)] == s;
    }
  }

  /**
   * Closing once per reference frees the slot and runs its teardown exactly
   * once; one close more is a panic, never a second release.
   */
  lemma {:induction false} LastCloseReleasesOnce(s: seq<File>, h: nat)
    requires h < |s| && s[h].ref >= 1
    ensures var r := CloseTimes(s, h, s[h].ref);
            && r.Returned?
            && r.value.teardown == Teardown(s[h])
            && r.value.table == s[h := s[h].(ref := 0, kind := FdNone)]
            && Close(r.value.table, h) == Panicked("fileclose")
    decreases s[h].ref
  {
    if s[h].ref > 1 {
      var t := s[h := s[h].(ref := s[h].ref - 1)];
      assert Close(s, h) == Returned(Closed(t, []));
      LastCloseReleasesOnce(t, h);
      assert Teardown(t[h]) == Teardown(s[h]);
      assert t[h := t[h].(ref := 0, kind := FdNone)] == s[h := s[h].(ref := 0, kind := FdNone)];
    } else {
      var c := Closed(s[h := s[h].(ref := 0, kind := FdNone)], Teardown(s[h]));
      assert Close(s, h) == Returned(c);
      assert CloseTimes(c.table, h, 0) == Returned(Closed(c.table, []));
      assert c.teardown + [] == c.teardown;
    }
  }

  /**
   * A freshly allocated slot duplicated `k` times stays held through the
   * first `k` closes and is freed by close number `k + 1`, with one teardown
   * in total.
   */
  lemma DupsThenClosesBalance(s: seq<File>, h: nat, k: nat)
    requires h < |s| && s[h].ref == 1
    ensures DupTimes(s, h, k) == Returned(s[h := s[h].(ref := k + 1)])
    ensures var t := s[h := s[h].(ref := k + 1)];
            forall j :: 0 <= j <= k ==>
              CloseTimes(t, h, j) == Returned(Closed(t[h := t[h].(ref := k + 1 - j)], []))
    ensures CloseTimes(s[h := s[h].(ref := k + 1)], h, k + 1)
              == Returned(Closed(s[h := s[h].(ref := 0, kind := FdNone)], Teardown(s[h])))
  {
    DupTimesAddsReferences(s, h, k);
    var t := s[h := s[h].(ref := k + 1)];
    forall j | 0 <= j <= k
      ensures CloseTimes(t, h, j) == Returned(Closed(t[h := t[h].(ref := k + 1 - j)], []))
    {
      EarlyClosesReleaseNothing(t, h, j);
    }
    LastCloseReleasesOnce(t, h);
    assert Teardown(t[h]) == Teardown(s[h]);
    assert t[h := t[h].(ref := 0, kind := FdNone)] == s[h := s[h].(ref := 0, kind := FdNone)];
  }

  /** The table after `k` successive `filealloc` calls, and the handles they returned. */
  datatype Batch = Batch(table: seq<File>, handles: seq<Option<nat>>)

  function AllocTimes(s: seq<File>, k: nat): (b: Batch)
    ensures |b.table| == |s| && |b.handles| == k
    decreases k
  {
    if k == 0 then Batch(s, [])
    else
      var a := Alloc(s);
      var b := AllocTimes(a.table, k - 1);
      Batch(b.table, [a.handle] + b.handles)
  }

  /** With every slot below a free slot `b` held, allocation takes `b`. */
  lemma AllocAtBoundary(s: seq<File>, b: nat)
    requires b < |s| && s[b].ref == 0
    requires forall i :: 0 <= i < b ==> s[i].ref != 0
    ensures Alloc(s) == Allocation(s[b := s[b].(ref := 1)], Some(b))
  {
  }

  /** Below `b` every slot is held and from `b` on every slot is free: the next `k` allocations take `b, b + 1, …` in order. */
  lemma {:induction false} FillInOrder(s: seq<File>, b: nat, k: nat)
    requires b + k <= |s|
    requires forall i :: 0 <= i < b ==> s[i].ref != 0
    requires forall i :: b <= i < |s| ==> s[i].ref == 0
    ensures forall j :: 0 <= j < k ==> AllocTimes(s, k).handles[j] == Some(b + j)
    decreases k
  {
    if k > 0 {
      var t := s[b := s[b].(ref := 1)];
      AllocAtBoundary(s, b);
      FillInOrder(t, b + 1, k - 1);
      var hs := [Some(b)] + AllocTimes(t, k - 1).handles;
      assert AllocTimes(s, k).handles == hs;
      forall j | 0 <= j < k ensures hs[j] == Some(b + j) {
        if j > 0 {
          assert hs[j] == AllocTimes(t, k - 1).handles[j - 1];
        }
      }
    }
  }

  /** In the same setting, those `k` allocations claim exactly slots `b` to `b + k - 1` and touch nothing else. */
  lemma {:induction false} FillClaims(s: seq<File>, b: nat, k: nat)
    requires b + k <= |s|
    requires forall i :: 0 <= i < b ==> s[i].ref != 0
    requires forall i :: b <= i < |s| ==> s[i].ref == 0
    ensures forall i :: 0 <= i < |s| ==>
              AllocTimes(s, k).table[i] == if b <= i < b + k then s[i].(ref := 1) else s[i]
    decreases k
  {
    if k > 0 {
      var t := s[b := s[b].(ref := 1)];
      AllocAtBoundary(s, b);
      FillClaims(t, b + 1, k - 1);
      var all := AllocTimes(s, k).table;
      assert all == AllocTimes(t, k - 1).table;
      forall i | 0 <= i < |s|
        ensures all[i] == if b <= i < b + k then s[i].(ref := 1) else s[i]
      {
        if i == b {
          assert all[i] == t[b];
        } else {
          assert t[i] == s[i];
        }
      }
    }
  }

  /** In a table whose every slot is held once, nothing can be allocated until a close frees a slot, which the next allocation takes. */
  lemma ReuseAfterClose(t: seq<File>, h: nat)
    requires h < |t|
    requires forall i :: 0 <= i < |t| ==> t[i].ref == 1
    ensures Alloc(t).handle == None
    ensures Close(t, h).Returned? && Alloc(Close(t, h).value.table).handle == Some(h)
  {
  }

  /**
   * From an empty table, one allocation per slot hands out slots 0, 1, … in
   * order, the next allocation finds the table exhausted, and after one close
   * the next allocation reuses exactly the slot just freed.
   */
  lemma ExhaustThenReuse(s: seq<File>, h: nat)
    requires h < |s|
    requires forall i :: 0 <= i < |s| ==> s[i].ref == 0
    ensures var full := AllocTimes(s, |s|);
            && |full.handles| == |s|
            && (forall j :: 0 <= j < |s| ==> full.handles[j] == Some(j))
            && Alloc(full.table).handle == None
            && Close(full.table, h).Returned?
            && Alloc(Close(full.table, h).value.table).handle == Some(h)
  {
    FillInOrder(s, 0, |s|);
    FillClaims(s, 0, |s|);
    ReuseAfterClose(AllocTimes(s, |s|).table, h);
  }
}
