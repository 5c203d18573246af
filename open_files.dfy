/**
 * The open-file layer of file.c as a class over the `ftable.file` array:
 * allocation, duplication and close of slots, and the read, write and stat
 * dispatch on a slot's type. Handles are slot indices. Calls into the pipe,
 * inode and log layers are recorded in `trace`; what they return is passed in.
 */
module OpenFiles {
  import opened Wrappers
  import opened FileTable
  import opened WriteChunker

  /** `begin_op(); writei(...); end_op();` for one segment of a write. */
  function Transaction(ip: InodeId, s: Seg): seq<Event>
  {
    [BeginOp, Writei(ip, s.src, s.off, s.len), EndOp]
  }

  /** The transactions of the segments `segs`, in order. */
  function Transactions(ip: InodeId, segs: seq<Seg>): seq<Event>
  {
    if segs == [] then [] else Transaction(ip, segs[0]) + Transactions(ip, segs[1..])
  }

  class FTable {
    /** `ftable.file[NFILE]`. */
    var file: array<File>
    /** The calls made into the pipe, inode and log layers, oldest first. */
    ghost var trace: seq<Event>

    ghost predicate Valid()
      reads this, file
    {
      WellFormed(file[..])
    }

    /** The zero-filled static table of `nfile` slots, with nothing called yet. */
    constructor (nfile: nat)
      ensures Valid() && fresh(file)
      ensures file[..] == seq(nfile, _ => Unused) && trace == []
    {
      file := new File[nfile](_ => Unused);
      trace := [];
    }

    /** `filealloc`: scan for the first slot with `ref == 0` and claim it. */
    method FileAlloc() returns (f: Option<nat>)
      requires Valid()
      modifies file
      ensures Valid()
      ensures Alloc(old(file[..])) == Allocation(file[..], f)
    {
      var i := 0;
      while i < file.Length
        invariant 0 <= i <= file.Length
        invariant file[..] == old(file[..])
        invariant forall j :: 0 <= j < i ==> file[j].ref != 0
      {
        if file[i].ref == 0 {
          file[i] := file[i].(ref := 1);
          return Some(i);
        }
        i := i + 1;
      }
      return None;
    }

    /** `filedup`: panic on a free slot, else one more reference. */
    method FileDup(f: nat) returns (r: Outcome<nat>)
      requires Valid() && f < file.Length
      modifies file
      ensures Valid()
      ensures match Dup(old(file[..]), f) {
                case Panicked(m) => r == Panicked(m) && file[..] == old(file[..])
                case Returned(t) => r == Returned(f) && file[..] == t
              }
    {
      if file[f].ref < 1 {
        return Panicked("filedup");
      }
      file[f] := file[f].(ref := file[f].ref + 1);
      return Returned(f);
    }

    /**
     * `fileclose`: panic on a free slot; drop one reference; on the last one
     * snapshot the slot, clear it, then release what the snapshot held.
     */
    method FileClose(f: nat) returns (r: Outcome<()>)
      requires Valid() && f < file.Length
      modifies file, this`trace
      ensures Valid()
      ensures match Close(old(file[..]), f) {
                case Panicked(m) =>
                  r == Panicked(m) && file[..] == old(file[..]) && trace == old(trace)
                case Returned(c) =>
                  r == Returned(()) && file[..] == c.table && trace == old(trace) + c.teardown
              }
    {
      if file[f].ref < 1 {
        return Panicked("fileclose");
      }
      file[f] := file[f].(ref := file[f].ref - 1);
      if file[f].ref > 0 {
        return Returned(());
      }
      var ff := file[f];
      file[f] := file[f].(ref := 0, kind := FdNone);
      if ff.kind == FdPipe {
        trace := trace + [PipeClose(ff.pipe, ff.writable)];
      } else if ff.kind == FdInode {
        trace := trace + [BeginOp];
        trace := trace + [Iput(ff.ip)];
        trace := trace + [EndOp];
      }
      return Returned(());
    }

    /** `filestat`: metadata only for an inode; every other type gives -1. */
    method FileStat(f: nat) returns (r: int)
      requires f < file.Length
      modifies this`trace
      ensures r == 0 <==> file[f].kind == FdInode
      ensures r == 0 || r == -1
      ensures trace == old(trace) + (if file[f].kind == FdInode then [Stati(file[f].ip)] else [])
    {
      if file[f].kind == FdInode {
        trace := trace + [Stati(file[f].ip)];
        return 0;
      }
      return -1;
    }

    /**
     * `fileread`: -1 on a slot not open for reading; a pipe read; or an inode
     * read at `off` that moves `off` on by what was read. `answer` is what
     * `piperead` or `readi` returns.
     */
    method FileRead(f: nat, n: int, answer: int) returns (r: Outcome<int>)
      requires Valid() && f < file.Length
      modifies file, this`trace
      ensures Valid()
      ensures var x := old(file[f]);
              if !x.readable then
                r == Returned(-1) && file[..] == old(file[..]) && trace == old(trace)
              else if x.kind == FdPipe then
                r == Returned(answer) && file[..] == old(file[..])
                && trace == old(trace) + [PipeRead(x.pipe, n)]
              else if x.kind == FdInode then
                r == Returned(answer)
                && file[..] == old(file[..])[f := x.(off := if answer > 0 then x.off + answer else x.off)]
                && trace == old(trace) + [Readi(x.ip, x.off, n)]
              else
                r == Panicked("fileread") && file[..] == old(file[..]) && trace == old(trace)
    {
      var x := file[f];
      if !x.readable {
        return Returned(-1);
      }
      if x.kind == FdPipe {
        trace := trace + [PipeRead(x.pipe, n)];
        return Returned(answer);
      }
      if x.kind == FdInode {
        trace := trace + [Readi(x.ip, x.off, n)];
        if answer > 0 {
          file[f] := x.(off := x.off + answer);
        }
        return Returned(answer);
      }
      return Panicked("fileread");
    }

    /**
     * `filewrite`: -1 on a slot not open for writing; a pipe write; or an
     * inode write split into segments of at most `MaxSegment(maxOpBlocks)`
     * bytes, one log transaction each. `pipeAnswer` is what `pipewrite`
     * returns and `writei(k)` what `writei` returns for segment `k`.
     */
    method FileWrite(f: nat, n: int, maxOpBlocks: int, pipeAnswer: int, writei: nat -> int)
      returns (r: Outcome<int>)
      requires Valid() && f < file.Length
      requires maxOpBlocks >= 6
      modifies file, this`trace
      ensures Valid()
      ensures var x := old(file[f]);
              if !x.writable then
                r == Returned(-1) && file[..] == old(file[..]) && trace == old(trace)
              else if x.kind == FdPipe then
                r == Returned(pipeAnswer) && file[..] == old(file[..])
                && trace == old(trace) + [PipeWrite(x.pipe, n)]
              else if x.kind == FdInode then
                var w := WriteRun(n, MaxSegment(maxOpBlocks), 0, 0, writei, x.off);
                r == w.ret
                && file[..] == old(file[..])[f := x.(off := w.off)]
                && trace == old(trace) + Transactions(x.ip, w.segs)
              else
                r == Panicked("filewrite") && file[..] == old(file[..]) && trace == old(trace)
    {
      var x := file[f];
      if !x.writable {
        return Returned(-1);
      }
      if x.kind == FdPipe {
        trace := trace + [PipeWrite(x.pipe, n)];
        return Returned(pipeAnswer);
      }
      if x.kind == FdInode {
        r := WriteInode(f, n, MaxSegment(maxOpBlocks), writei);
        WriteFromIsPrepend(n, MaxSegment(maxOpBlocks), 0, 0, writei, x.off, []);
        assert [] + WriteRun(n, MaxSegment(maxOpBlocks), 0, 0, writei, x.off).segs
            == WriteRun(n, MaxSegment(maxOpBlocks), 0, 0, writei, x.off).segs;
        return r;
      }
      return Panicked("filewrite");
    }

    /**
     * The inode branch of `filewrite`: `while(i < n)`, one transaction per
     * segment of `min(n - i, max)` bytes, until all is written or `writei`
     * answers anything but the segment length.
     */
    method WriteInode(f: nat, n: int, max: int, writei: nat -> int) returns (r: Outcome<int>)
      requires Valid() && f < file.Length
      requires max > 0
      modifies file, this`trace
      ensures Valid()
      ensures var x := old(file[f]);
              var w := WriteFrom(n, max, 0, 0, writei, x.off, []);
              && r == w.ret
              && file[..] == old(file[..])[f := x.(off := w.off)]
              && trace == old(trace) + Transactions(x.ip, w.segs)
    {
      var x := file[f];
      ghost var s0 := file[..];
      var i: nat := 0;
      var k: nat := 0;
      // The segments issued so far; their transactions join `trace` when the write ends.
      ghost var done: seq<Seg> := [];
      ghost var run := WriteFrom(n, max, 0, 0, writei, x.off, []);
      while i < n
        invariant file[..] == s0[f := x.(off := x.off + i)]
        invariant trace == old(trace)
        invariant WriteFrom(n, max, i, k, writei, x.off + i, done) == run
        decreases n - i
      {
        var n1 := n - i;
        if n1 > max {
          n1 := max;
        }
        // begin_op(); writei(ip, addr + i, off, n1); end_op();
        var seg := Seg(i, x.off + i, n1);
        var w := writei(k);
        if w > 0 {
          file[f] := x.(off := x.off + i + w);
          assert file[..] == s0[f := x.(off := x.off + i + w)];
        }
        if w == -2 {
          trace := trace + Transactions(x.ip, done + [seg]);
          return Returned(-2);
        }
        if w < 0 {
          done := done + [seg];
          break;
        }
        if w != n1 {
          trace := trace + Transactions(x.ip, done + [seg]);
          return Panicked("short filewrite");
        }
        i := i + w;
        k := k + 1;
        done := done + [seg];
      }
      trace := trace + Transactions(x.ip, done);
      return Returned(if i == n then n else -1);
    }
  }
}
