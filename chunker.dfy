/**
 * The transaction-bounded write loop of `filewrite` (file.c), as a pure
 * function of the request size, the segment bound and what `writei`
 * returns: `writei(k)` is its answer to the `k`-th segment issued.
 */
module WriteChunker {
  import opened Wrappers

  /** The block size written as the literal 512 in the segment bound. */
  const BSIZE := 512

  /**
   * `max = ((MAXOPBLOCKS-1-1-2) / 2) * 512`: a segment's blocks, counted twice
   * (data and allocation bookkeeping) plus four reserved blocks, fit in one
   * log transaction, and one more block per segment would not.
   */
  function MaxSegment(maxOpBlocks: int): (max: int)
    requires maxOpBlocks >= 6
    ensures max >= BSIZE && max % BSIZE == 0
    ensures 2 * (max / BSIZE) + 4 <= maxOpBlocks < 2 * (max / BSIZE + 1) + 4
  {
    var blocks := (maxOpBlocks - 1 - 1 - 2) / 2;
    assert blocks * BSIZE / BSIZE == blocks;
    blocks * BSIZE
  }

  function Min(a: int, b: int): int { if a < b then a else b }

  /** Number of segments a write of `m` remaining bytes is split into. */
  function Segments(m: int, max: int): nat
    requires max > 0
    decreases m
  {
    if m <= 0 then 0 else 1 + Segments(m - max, max)
  }

  /** `Segments(m, max)` is the ceiling of `m / max`: the least count whose segments cover `m`. */
  lemma {:induction false} SegmentsIsCeiling(m: int, max: int)
    requires m >= 0 && max > 0
    ensures m <= Segments(m, max) * max < m + max
    decreases m
  {
    if m > max {
      SegmentsIsCeiling(m - max, max);
      assert Segments(m, max) * max == max + Segments(m - max, max) * max;
    } else if m > 0 {
      assert Segments(m - max, max) == 0;
    }
  }

  /** A segment after the first exists only when more than `max` bytes remain. */
  lemma MoreThanOneSegment(m: int, max: int, j: nat)
    requires max > 0 && 0 < j < Segments(m, max)
    ensures m > max
  {
  }

  /** One `writei(ip, addr + src, off, len)` call: buffer position, file offset, length. */
  datatype Seg = Seg(src: int, off: nat, len: int)

  /** The end of a `filewrite` on an inode: its result, the final `f->off`, the calls issued. */
  datatype Run = Run(ret: Outcome<int>, off: nat, segs: seq<Seg>)

  /** A run preceded by the segments `pre` issued before it. */
  function Prepend(pre: seq<Seg>, w: Run): Run
  {
    w.(segs := pre + w.segs)
  }

  /**
   * The calls an all-successful write issues from buffer position `i` and file
   * offset `off`: each takes the next `min(n - i, max)` bytes.
   */
  function Plan(n: int, max: int, i: int, off: nat): (p: seq<Seg>)
    requires max > 0
    ensures |p| == Segments(n - i, max)
    decreases n - i
  {
    if i >= n then [] else [Seg(i, off, Min(n - i, max))] + Plan(n, max, i + max, off + max)
  }

  lemma {:induction false} PlanShape(n: int, max: int, i: int, off: nat, j: nat)
    requires max > 0 && j < Segments(n - i, max)
    ensures Plan(n, max, i, off)[j] == Seg(i + j * max, off + j * max, Min(n - i - j * max, max))
    ensures 0 < Plan(n, max, i, off)[j].len <= max
    decreases j
  {
    if j > 0 {
      PlanShape(n, max, i + max, off + max, j - 1);
      assert i + max + (j - 1) * max == i + j * max;
    }
  }

  /** Value returned once the loop has ended without an early return. */
  function Finish(n: int, i: int): int { if i == n then n else -1 }

  /**
   * The loop `while(i < n)` of `filewrite`, from buffer position `i`, segment
   * number `k` and file offset `off`; `writei(k)` is what `writei` returns for
   * segment `k`.
   */
  function WriteRun(n: int, max: int, i: nat, k: nat, writei: nat -> int, off: nat): (w: Run)
    requires max > 0
    ensures w.off >= off
    decreases n - i
  {
    if i >= n then Run(Returned(Finish(n, i)), off, [])
    else
      var n1 := Min(n - i, max);
      var r := writei(k);
      var off' := if r > 0 then off + r else off;
      var seg := Seg(i, off, n1);
      if r == -2 then Run(Returned(-2), off', [seg])
      else if r < 0 then Run(Returned(Finish(n, i)), off', [seg])
      else if r != n1 then Run(Panicked("short filewrite"), off', [seg])
      else
        var w := WriteRun(n, max, i + r, k + 1, writei, off');
        Run(w.ret, w.off, [seg] + w.segs)
  }

  /**
   * Whatever `writei` answers, the calls issued are a prefix of the plan (so
   * each asks for `min(n - i, max)` bytes), at least one call is issued when
   * there is anything to write, and the loop returns `n`, -1 or -2 unless it
   * panics; returning `n` means the offset moved by exactly the bytes asked.
   */
  lemma {:induction false} WriteRunFollowsPlan(n: int, max: int, i: nat, k: nat, writei: nat -> int, off: nat)
    requires max > 0
    ensures var w := WriteRun(n, max, i, k, writei, off);
            && w.segs <= Plan(n, max, i, off)
            && (i < n ==> |w.segs| >= 1)
            && (w.ret.Returned? ==> w.ret.value in {n, -1, -2})
            && (w.ret == Returned(n) && n >= 0 ==> w.off == off + (n - i))
    decreases n - i
  {
    if i < n {
      var n1 := Min(n - i, max);
      var r := writei(k);
      if r == n1 {
        WriteRunFollowsPlan(n, max, i + r, k + 1, writei, off + r);
        var p := Plan(n, max, i, off);
        var sub := WriteRun(n, max, i + r, k + 1, writei, off + r);
        if n - i > max {
          assert p == [Seg(i, off, n1)] + Plan(n, max, i + max, off + max);
        } else {
          assert sub.segs == [];
        }
      }
    }
  }

  /**
   * The same loop in the form the code runs it: the segments already issued
   * are carried along in `done`, and each pass either ends the run or moves
   * on to the next segment with one more issued.
   */
  function WriteFrom(n: int, max: int, i: nat, k: nat, writei: nat -> int, off: nat, done: seq<Seg>): Run
    requires max > 0
    decreases n - i
  {
    if i >= n then Run(Returned(Finish(n, i)), off, done)
    else
      var n1 := Min(n - i, max);
      var r := writei(k);
      var off' := if r > 0 then off + r else off;
      var seg := Seg(i, off, n1);
      if r == -2 then Run(Returned(-2), off', done + [seg])
      else if r < 0 then Run(Returned(Finish(n, i)), off', done + [seg])
      else if r != n1 then Run(Panicked("short filewrite"), off', done + [seg])
      else WriteFrom(n, max, i + r, k + 1, writei, off', done + [seg])
  }

  /** Carrying the issued segments along gives the run that follows them. */
  lemma {:induction false} WriteFromIsPrepend(n: int, max: int, i: nat, k: nat, writei: nat -> int, off: nat, done: seq<Seg>)
    requires max > 0
    ensures WriteFrom(n, max, i, k, writei, off, done) == Prepend(done, WriteRun(n, max, i, k, writei, off))
    decreases n - i
  {
    if i < n {
      var n1 := Min(n - i, max);
      var r := writei(k);
      if r == n1 {
        var seg := Seg(i, off, n1);
        WriteFromIsPrepend(n, max, i + r, k + 1, writei, off + r, done + [seg]);
        var next := WriteRun(n, max, i + r, k + 1, writei, off + r);
        assert (done + [seg]) + next.segs == done + ([seg] + next.segs);
      }
    } else {
      assert done + [] == done;
    }
  }

  /** Every `writei` answer is the length it was asked to write. */
  ghost predicate Honest(writei: nat -> int, k: nat, p: seq<Seg>)
  {
    forall j :: 0 <= j < |p| ==> writei(k + j) == p[j].len
  }

  lemma {:induction false} CompleteWrite(n: int, max: int, i: nat, k: nat, writei: nat -> int, off: nat)
    requires max > 0 && i <= n
    requires Honest(writei, k, Plan(n, max, i, off))
    ensures WriteRun(n, max, i, k, writei, off) == Run(Returned(n), off + (n - i), Plan(n, max, i, off))
    decreases n - i
  {
    if i < n {
      var p := Plan(n, max, i, off);
      assert writei(k + 0) == p[0].len;
      if n - i > max {
        var tail := Plan(n, max, i + max, off + max);
        assert p == [p[0]] + tail;
        forall j | 0 <= j < |tail| ensures writei(k + 1 + j) == tail[j].len {
          assert writei(k + (j + 1)) == p[j + 1].len;
        }
        CompleteWrite(n, max, i + max, k + 1, writei, off + max);
      }
    }
  }

  lemma {:induction false} StopsAt(n: int, max: int, i: nat, k: nat, writei: nat -> int, off: nat, j: nat)
    requires max > 0
    requires j < Segments(n - i, max)
    requires forall t :: 0 <= t < j ==> writei(k + t) == Plan(n, max, i, off)[t].len
    requires writei(k + j) != Plan(n, max, i, off)[j].len
    ensures var p := Plan(n, max, i, off);
            var r := writei(k + j);
            var w := WriteRun(n, max, i, k, writei, off);
            && w.segs == p[..j + 1]
            && w.off == p[j].off + (if r > 0 then r else 0)
            && w.ret == (if r == -2 then Returned(-2) else if r < 0 then Returned(-1) else Panicked("short filewrite"))
    decreases j
  {
    var p := Plan(n, max, i, off);
    if j > 0 {
      var tail := Plan(n, max, i + max, off + max);
      MoreThanOneSegment(n - i, max, j);
      assert p == [p[0]] + tail;
      assert writei(k + 0) == p[0].len;
      forall t | 0 <= t < j - 1 ensures writei(k + 1 + t) == tail[t].len {
        assert writei(k + (t + 1)) == p[t + 1].len;
      }
      assert p[j] == tail[j - 1];
      StopsAt(n, max, i + max, k + 1, writei, off + max, j - 1);
      assert p[..j + 1] == [p[0]] + tail[..j];
    }
  }
}
