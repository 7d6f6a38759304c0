/** The crash-safe JSONL store: append and fsync, rotation by size and age, renaming
    into the dated tree, compression through a temporary file, repair at start. */
module ArchiveStore {
  import opened Wrappers
  import opened ArchiveDisk
  import opened ArchiveFiles

  // File names carry the first record's time in whole seconds.
  function StampOf(ts: int): (s: int)
    ensures s * 1_000_000_000 <= ts < (s + 1) * 1_000_000_000
  {
    ts / 1_000_000_000
  }

  const CHUNK: nat := 64 * 1024

  // Scan d backward, one chunk-sized buffer at a time, for the end of its last whole line.
  method LastNewline(d: Bytes, chunk: nat) returns (end: nat)
    requires chunk > 0
    ensures end == CutEnd(d)
  {
    var buf := new Byte[chunk];
    var pos := |d|;
    while pos > 0
      invariant 0 <= pos <= |d|
      invariant forall i :: pos <= i < |d| ==> d[i] != NEWLINE
    {
      var n := if pos < chunk then pos else chunk;
      pos := pos - n;
      forall i | 0 <= i < n {
        buf[i] := d[pos + i];
      }
      var i := n;
      while i > 0
        invariant 0 <= i <= n
        invariant forall j :: pos + i <= j < |d| ==> d[j] != NEWLINE
      {
        i := i - 1;
        if buf[i] == NEWLINE {
          CutEndIs(d, pos + i + 1);
          return pos + i + 1;
        }
      }
    }
    CutEndIs(d, 0);
    return 0;
  }

  lemma CutEndIs(d: Bytes, n: nat)
    requires n <= |d| && (n == 0 || d[n - 1] == NEWLINE)
    requires forall i :: n <= i < |d| ==> d[i] != NEWLINE
    ensures CutEnd(d) == n
  {
    assert forall m :: n < m <= |d| ==> d[..m][m - 1] == d[m - 1];
    assert Clean(d[..n]);
  }

  class Store {
    const opts: Options
    const disk: Disk
    var open: bool
    var size: nat
    var openedAt: Option<int>
    var firstTS: Option<int>
    var num: nat
    var closed: bool
    var closeOk: bool

    // What durability rests on: an age limit or a reliable Truncate, and truthful probes.
    ghost predicate Hypothesis() {
      (opts.rotateEvery > 0 || disk.cutHolds) && disk.probesHonest
    }

    ghost predicate Sound()
      reads disk
    {
      disk.Valid()
    }

    ghost predicate Valid()
      reads this, disk
    {
      && Sound()
      && (open ==>
            && Part in disk.files
            && size == |disk.files[Part].data|
            && (openedAt.Some? ==> Clean(disk.files[Part].data)))
      && (disk.cutHolds ==> Clean(PartData(disk.files)))
    }

    ghost function Setup(): Mode {
      Mode(opts.gzip, disk.probesHonest)
    }

    // The calls since the old state acknowledged no line. Under the hypothesis, when every tree on record had
    // every acknowledged line in place, every tree now has; and the run stays lawful, and within RotateSize.
    twostate predicate Forward()
      reads disk
    {
      && Sound()
      && old(disk.history) <= disk.history
      && disk.acked == old(disk.acked)
      && old(disk.faults) <= disk.faults
      && (Hypothesis() && AllSafe(old(disk.history)) ==> AllSafe(disk.history))
      && (Lawful(old(disk.history), disk.probesHonest) ==> Lawful(disk.history, disk.probesHonest))
      && (Fitting(old(disk.history), opts.rotateSize) ==> Fitting(disk.history, opts.rotateSize))
    }

    // One call that loses no line and keeps finished files and sizes.
    twostate lemma Advances(ok: bool)
      requires old(Sound()) && disk.Called(ok)
      requires Hypothesis() ==> SafeStep(old(disk.files), disk.files)
      requires TidyStep(old(disk.files), disk.files, opts.rotateSize, disk.probesHonest)
      ensures Forward()
    {
      RunGrows(old(disk.history), Snapshot(disk.files, disk.acked, false), opts.rotateSize, disk.probesHonest);
    }

    constructor Raw(opts: Options, disk: Disk)
      ensures this.opts == opts && this.disk == disk
      ensures !open && !closed && num == 0
    {
      this.opts, this.disk := opts, disk;
      open, size, openedAt, firstTS, num, closed, closeOk := false, 0, None, None, 0, false, true;
    }

    // A call that changes no file.
    method Tick() returns (ok: bool)
      requires Sound()
      modifies disk
      ensures Forward() && disk.files == old(disk.files)
      ensures disk.faults == old(disk.faults) <==> ok
    {
      ok := disk.Touch();
      Advances(ok);
    }

    method Probe(name: Name) returns (there: bool)
      requires Sound()
      modifies disk
      ensures Forward() && disk.files == old(disk.files)
      ensures there ==> name in disk.files
      ensures disk.probesHonest ==> there == (name in disk.files)
      ensures disk.faults == old(disk.faults) <==> there == (name in disk.files)
    {
      there := disk.Exists(name);
      Advances(there == (name in disk.files));
    }

    // One call on the open file: cut it, fsync it, remove it when empty, rename it.
    method Shorten(size: nat, sure: bool) returns (ok: bool)
      requires Sound() && Part in disk.files && size <= |PartData(disk.files)|
      requires disk.files[Part].synced <= size || size == CutEnd(PartData(disk.files))
      modifies disk
      ensures Forward() && (sure ==> ok)
      ensures disk.files ==
              if ok then old(disk.files)[Part := Shortened(old(disk.files)[Part], size)] else old(disk.files)
      ensures disk.faults == old(disk.faults) ==> ok
    {
      ghost var fs := disk.files;
      ok := disk.Truncate(size, sure);
      if ok {
        ShortenKeepsLines(fs[Part], size);
        ShrinkHarmless(fs, disk.files, opts.rotateSize, disk.probesHonest);
      }
      Advances(ok);
    }

    method Flush() returns (ok: bool)
      requires Sound() && Part in disk.files
      modifies disk
      ensures Forward()
      ensures disk.files == if ok then old(disk.files)[Part := Flushed(old(disk.files)[Part])] else old(disk.files)
      ensures disk.faults == old(disk.faults) ==> ok
    {
      ghost var fs := disk.files;
      ok := disk.Sync(Part);
      FlushHarmless(fs, fs[Part := Flushed(fs[Part])], opts.rotateSize, disk.probesHonest);
      Advances(ok);
    }

    method Drop() returns (ok: bool)
      requires Sound() && Part in disk.files && PartData(disk.files) == []
      modifies disk
      ensures Forward()
      ensures disk.files == if ok then old(disk.files) - {Part} else old(disk.files)
      ensures disk.faults == old(disk.faults) ==> ok
    {
      ghost var fs := disk.files;
      ok := disk.Remove(Part);
      EmptyHarmless(fs, opts.rotateSize, disk.probesHonest);
      Advances(ok);
    }

    method Finish(k: Key) returns (ok: bool)
      requires Sound() && Part in disk.files && EndsInNewline(PartData(disk.files))
      requires disk.probesHonest ==> !Taken(disk.files, k)
      modifies disk
      ensures Forward()
      ensures disk.files == if ok then MovedTo(old(disk.files), k) else old(disk.files)
      ensures disk.faults == old(disk.faults) ==> ok
    {
      ghost var fs := disk.files;
      ok := disk.Rename(Part, Plain(k));
      if ok {
        if Hypothesis() {
          RenameSafe(fs, k);
        }
        RenameTidy(fs, k, opts.rotateSize, disk.probesHonest);
      }
      Advances(ok);
    }

    // One call on a temporary file, or on a plain file with a complete twin.
    method RemoveTmp(k: Key) returns (ok: bool)
      requires Sound()
      modifies disk
      ensures Forward()
      ensures disk.files == if ok then old(disk.files) - {Tmp(k)} else old(disk.files)
      ensures disk.faults == old(disk.faults) ==> ok
    {
      ghost var fs := disk.files;
      ok := disk.Remove(Tmp(k));
      TmpHarmless(fs, disk.files, k, opts.rotateSize, disk.probesHonest);
      Advances(ok);
    }

    method RemovePlain(k: Key) returns (ok: bool)
      requires Sound() && Gz(k) in disk.files
      modifies disk
      ensures Forward()
      ensures disk.files == if ok then old(disk.files) - {Plain(k)} else old(disk.files)
      ensures disk.faults == old(disk.faults) ==> ok
    {
      ghost var fs := disk.files;
      ok := disk.Remove(Plain(k));
      PlainSuperseded(fs, k, opts.rotateSize, disk.probesHonest);
      Advances(ok);
    }

    // The next file name of this second that neither a plain nor a compressed file has.
    method NextKey(stamp: int) returns (k: Key)
      requires Sound()
      modifies this`num, disk
      ensures Forward() && disk.files == old(disk.files)
      ensures k == Key(stamp, num) && num > old(num)
      ensures disk.probesHonest ==> !Taken(disk.files, k)
      ensures forall q :: old(num) < q < num ==> Taken(disk.files, Key(stamp, q))
    {
      hide Lawful, Fitting, AllSafe, GoodFiles;
      while true
        invariant Forward() && disk.files == old(disk.files)
        invariant old(num) <= num
        invariant forall q :: old(num) < q <= num ==> Taken(disk.files, Key(stamp, q))
        decreases |Above(disk.files, stamp, num)|
      {
        ghost var above := Above(disk.files, stamp, num);
        num := num + 1;
        k := Key(stamp, num);
        var there := Probe(Plain(k));
        if !there {
          there := Probe(Gz(k));
        }
        if !there {
          return;
        }
        assert num in above && num !in Above(disk.files, stamp, num);
        assert Above(disk.files, stamp, num) < above;
        SubsetSmaller(Above(disk.files, stamp, num), above);
      }
    }

    ghost function Above(fs: Files, stamp: int, num: nat): set<nat> {
      set n | n in fs.Keys && IsFinal(n) && n.key.stamp == stamp && n.key.num > num :: n.key.num
    }

    lemma SubsetSmaller(a: set<nat>, b: set<nat>)
      requires a < b
      ensures |a| < |b|
    {
      assert |b - a| + |a| == |b|;
      assert b - a != {};
    }

    // The calls that failed if only a stat of the compressed name, answered by seen, did.
    ghost function Missed(k: Key, seen: bool, fs: Files): nat {
      if seen == (Gz(k) in fs) then 0 else 1
    }

    // Compress plain file k through its temporary file; the plain file goes only once the compressed one is complete.
    // seen is what its stat of the compressed name answered; when no other call fails the tree is exactly CompressedAs.
    method Compress(k: Key) returns (ok: bool, ghost seen: bool)
      requires Sound() && Plain(k) in disk.files
      modifies disk
      ensures Forward()
      ensures seen ==> Gz(k) in old(disk.files)
      ensures disk.faults >= old(disk.faults) + Missed(k, seen, old(disk.files))
      ensures disk.faults == old(disk.faults) + Missed(k, seen, old(disk.files)) ==>
                disk.files == CompressedAs(old(disk.files), k, seen)
      ensures Compressed(old(disk.files), disk.files, k)
      ensures ok ==> Plain(k) !in disk.files
      ensures ok && Tmp(k) !in old(disk.files) ==> Tmp(k) !in disk.files
      ensures disk.faults == old(disk.faults) ==> ok
    {
      hide Lawful, Fitting, AllSafe, GoodFiles;
      var g := Probe(Gz(k));
      seen := g;
      if !g {
        ok := PlaceTwin(k);
        if !ok {
          return;
        }
      }
      ok := RemovePlain(k);
      var _ := Tick();
    }

    // Build the compressed twin of plain file k and make its directory durable.
    method PlaceTwin(k: Key) returns (ok: bool)
      requires Sound() && Plain(k) in disk.files
      modifies disk
      ensures Forward()
      ensures SameBut(old(disk.files), disk.files, {Tmp(k), Gz(k)})
      ensures Gz(k) in old(disk.files) ==> Gz(k) in disk.files
      ensures Gz(k) in disk.files && !(Gz(k) in old(disk.files) && disk.files[Gz(k)] == old(disk.files)[Gz(k)]) ==>
                disk.files[Gz(k)] == Flushed(old(disk.files)[Plain(k)])
      ensures ok ==>
                disk.files == (old(disk.files) - {Tmp(k)})[Gz(k) := Flushed(old(disk.files)[Plain(k)])]
      ensures disk.faults == old(disk.faults) ==> ok
    {
      hide Lawful, Fitting, AllSafe, GoodFiles;
      ok := BuildGzip(k);
      if !ok {
        return;
      }
      ok := Tick();
    }

    // Build the compressed twin of plain file k under its temporary name and rename it into place.
    method BuildGzip(k: Key) returns (ok: bool)
      requires Sound() && Plain(k) in disk.files
      modifies disk
      ensures Forward()
      ensures SameBut(old(disk.files), disk.files, {Tmp(k), Gz(k)})
      ensures if ok
              then Gz(k) in disk.files && disk.files[Gz(k)] == Flushed(disk.files[Plain(k)]) && Tmp(k) !in disk.files
              else SameBut(old(disk.files), disk.files, {Tmp(k)})
      ensures disk.faults == old(disk.faults) ==> ok
    {
      hide Lawful, Fitting, AllSafe, GoodFiles;
      ok := WriteGzip(k);
      if ok {
        ok := PutTwin(k);
      }
      if !ok {
        var _ := RemoveTmp(k);
      }
    }

    method PutTwin(k: Key) returns (ok: bool)
      requires Sound() && Plain(k) in disk.files && Tmp(k) in disk.files
      requires disk.files[Tmp(k)] == Flushed(disk.files[Plain(k)])
      modifies disk
      ensures Forward()
      ensures disk.files ==
              if ok then (old(disk.files) - {Tmp(k)})[Gz(k) := old(disk.files)[Tmp(k)]] else old(disk.files)
      ensures disk.faults == old(disk.faults) ==> ok
    {
      ghost var fs := disk.files;
      ok := disk.Rename(Tmp(k), Gz(k));
      if ok {
        TwinHarmless(fs, disk.files, k, opts.rotateSize, disk.probesHonest);
      }
      Advances(ok);
    }

    // Copy plain file k into its temporary compressed file and fsync that.
    method WriteGzip(k: Key) returns (ok: bool)
      requires Sound() && Plain(k) in disk.files
      modifies disk
      ensures Forward()
      ensures SameBut(old(disk.files), disk.files, {Tmp(k)})
      ensures ok ==> Tmp(k) in disk.files && disk.files[Tmp(k)] == Flushed(old(disk.files)[Plain(k)])
      ensures disk.faults == old(disk.faults) <==> ok
    {
      hide Lawful, Fitting, AllSafe, GoodFiles;
      ok := Tick();
      if !ok {
        return;
      }
      ok := CopyToTmp(k);
      if !ok {
        return;
      }
      ghost var fs := disk.files;
      label before:
      ok := disk.Sync(Tmp(k));
      TmpHarmless(fs, disk.files, k, opts.rotateSize, disk.probesHonest);
      Advances@before(ok);
    }

    method CopyToTmp(k: Key) returns (ok: bool)
      requires Sound() && Plain(k) in disk.files
      modifies disk
      ensures Forward()
      ensures SameBut(old(disk.files), disk.files, {Tmp(k)})
      ensures ok ==> Tmp(k) in disk.files && disk.files[Tmp(k)].data == old(disk.files)[Plain(k)].data
      ensures disk.faults == old(disk.faults) <==> ok
    {
      ghost var fs := disk.files;
      ok := disk.Copy(k);
      TmpHarmless(fs, disk.files, k, opts.rotateSize, disk.probesHonest);
      Advances(ok);
    }

    // Cut the open file back to its last newline when it does not end with one.
    method CutPartialLine() returns (size: nat, ok: bool)
      requires Sound() && Part in disk.files
      modifies disk
      ensures Forward()
      ensures CutOrKept(old(disk.files), disk.files)
      ensures ok ==> size == CutEnd(old(PartData(disk.files))) == |PartData(disk.files)|
      ensures ok ==> disk.files == old(disk.files)[Part := Repaired(old(disk.files)[Part])]
      ensures disk.faults == old(disk.faults) ==> ok
    {
      hide Lawful, Fitting, AllSafe, GoodFiles;
      ghost var fs := disk.files;
      CleanIsCut(fs[Part].data);
      assert fs == fs[Part := fs[Part]];
      var d := disk.files[Part].data;
      if d == [] {
        return 0, true;
      }
      ok := Tick();
      if !ok {
        return 0, false;
      }
      ok := Tick();
      if !ok {
        return 0, false;
      }
      size := LastNewline(d, CHUNK);
      if size == |d| {
        return size, true;
      }
      ok := Shorten(size, false);
      if !ok {
        return 0, false;
      }
      ok := Flush();
    }

    // Rename the open file into the dated tree under a fresh key, then compress it when configured.
    method Finalize(firstTS: Option<int>) returns (ok: bool, ghost k: Key)
      requires Sound() && Part in disk.files && EndsInNewline(PartData(disk.files))
      modifies this`num, disk
      ensures Forward()
      ensures if ok
              then Renamed(old(disk.files), disk.files, k, Setup())
              else disk.files == old(disk.files)
      ensures ok && firstTS.Some? ==> k.stamp == StampOf(firstTS.value)
      ensures disk.faults == old(disk.faults) ==> ok && (opts.gzip ==> Plain(k) !in disk.files)
    {
      hide Lawful, Fitting, AllSafe, GoodFiles;
      k := Key(0, 0);
      var ts: int := *;
      if firstTS.Some? {
        ts := firstTS.value;
      } else {
        ok := Tick();
        if !ok {
          return;
        }
      }
      ok := Tick();
      if !ok {
        return;
      }
      var target := NextKey(StampOf(ts));
      k := target;
      ghost var seen;
      ok, seen := Move(target);
    }

    // Rename the open file to key k, make the directories durable, compress when configured.
    // When no call but the stat of the compression fails, the tree is exactly FinishedAs of its answer.
    method Move(k: Key) returns (ok: bool, ghost seen: bool)
      requires Sound() && Part in disk.files && EndsInNewline(PartData(disk.files))
      requires disk.probesHonest ==> !Taken(disk.files, k)
      modifies disk
      ensures Forward()
      ensures if ok
              then Renamed(old(disk.files), disk.files, k, Setup())
              else disk.files == old(disk.files)
      ensures disk.faults == old(disk.faults) ==> ok && (opts.gzip ==> Plain(k) !in disk.files)
      ensures seen ==> Gz(k) in old(disk.files)
      ensures disk.faults == old(disk.faults) + (if opts.gzip then Missed(k, seen, old(disk.files)) else 0) ==>
                disk.files == FinishedAs(old(disk.files), k, opts.gzip, seen)
    {
      hide Lawful, Fitting, AllSafe, GoodFiles;
      seen := Gz(k) in disk.files;
      ok := Finish(k);
      if !ok {
        return;
      }
      var _ := Tick();
      var _ := Tick();
      if opts.gzip {
        var _, looked := Compress(k);
        seen := looked;
      }
    }

    // Close the open file, cut any partial line, and finalize what is left; remove it when nothing is.
    method Rotate() returns (ok: bool, ghost k: Key)
      requires Valid()
      modifies this`open, this`size, this`openedAt, this`firstTS, this`num, disk
      ensures Forward() && Valid() && !open
      ensures !old(open) ==> ok && disk.files == old(disk.files)
      ensures old(open) && ok ==> RotatedAway(old(disk.files), disk.files, k, Setup()) && Part !in disk.files
      ensures old(open) && ok && old(firstTS).Some? && Cut(old(PartData(disk.files))) != [] ==>
                k.stamp == StampOf(old(firstTS).value)
      ensures old(open) && !ok ==> CutOrKept(old(disk.files), disk.files)
      ensures disk.faults == old(disk.faults) ==> ok
    {
      hide Lawful, Fitting, AllSafe, GoodFiles;
      k := Key(0, 0);
      if !open {
        return true, k;
      }
      var ts := firstTS;
      open, size, openedAt, firstTS := false, 0, None, None;
      ok := Tick();
      if !ok {
        return;
      }
      ok := Tick();
      if !ok {
        return;
      }
      ok, k := RotateOut(ts);
      CleanIsCut(old(PartData(disk.files)));
    }

    method RotateOut(ts: Option<int>) returns (ok: bool, ghost k: Key)
      requires Sound() && Part in disk.files
      modifies this`num, disk
      ensures Forward()
      ensures if ok then RotatedAway(old(disk.files), disk.files, k, Setup())
              else CutOrKept(old(disk.files), disk.files)
      ensures ok && ts.Some? && Cut(old(PartData(disk.files))) != [] ==> k.stamp == StampOf(ts.value)
      ensures disk.faults == old(disk.faults) ==> ok
    {
      hide Lawful, Fitting, AllSafe, GoodFiles;
      k := Key(0, 0);
      var left: nat;
      left, ok := CutPartialLine();
      if !ok {
        return;
      }
      RepairedIsCut(old(disk.files)[Part]);
      if left == 0 {
        ok := Drop();
        return;
      }
      ok, k := Finalize(ts);
    }

    method Create() returns (ok: bool)
      requires Sound()
      modifies disk
      ensures Forward()
      ensures disk.files ==
              if ok && Part !in old(disk.files) then old(disk.files)[Part := File([], 0, false)] else old(disk.files)
      ensures ok ==> Part in disk.files
      ensures disk.faults == old(disk.faults) ==> ok
    {
      ghost var fs := disk.files;
      ok := disk.OpenPart();
      if Part !in fs {
        CreateHarmless(fs, opts.rotateSize, disk.probesHonest);
      }
      Advances(ok);
    }

    // Open the current file for appending; content left by an earlier failure makes it due for rotation.
    method Open(now: int) returns (ok: bool)
      requires Valid() && !open
      modifies this`open, this`size, this`openedAt, this`firstTS, disk
      ensures Forward() && Valid()
      ensures open == ok
      ensures SameBut(old(disk.files), disk.files, {Part}) && PartData(disk.files) == old(PartData(disk.files))
      ensures Part in old(disk.files) ==> disk.files == old(disk.files)
      ensures ok ==> openedAt == (if size > 0 then None else Some(now)) && (size == 0 ==> firstTS == None)
      ensures disk.faults == old(disk.faults) ==> ok
    {
      hide Lawful, Fitting, AllSafe, GoodFiles;
      ok := Create();
      if !ok {
        return;
      }
      ok := Tick();
      if !ok {
        var _ := Tick();
        return;
      }
      open, size, openedAt, firstTS := true, |disk.files[Part].data|, Some(now), None;
      if size > 0 {
        var ts: int := *;
        openedAt, firstTS := None, Some(ts);
      }
    }

    // Give up on the current file after a failed write of n bytes, cutting what may have landed.
    method Abandon(n: nat, ghost before: Bytes)
      requires Sound() && Part in disk.files && size <= |disk.files[Part].data|
      requires disk.files[Part].synced <= size && disk.files[Part].data[..size] == before
      requires n == 0 ==> disk.files[Part].data == before
      modifies this`open, this`size, this`openedAt, this`firstTS, disk
      ensures Forward() && !open
      ensures SameBut(old(disk.files), disk.files, {Part}) && Part in disk.files
      ensures disk.files[Part].data == before || disk.files[Part] == old(disk.files)[Part]
      ensures disk.cutHolds ==> disk.files[Part].data == before
    {
      hide Lawful, Fitting, AllSafe, GoodFiles;
      if n > 0 {
        var ok := Shorten(size, disk.cutHolds);
      }
      var _ := Tick();
      open, size, openedAt, firstTS := false, 0, None, None;
    }

    // The two calls of an append: write, then fsync.
    method Put(line: Bytes) returns (n: nat, ok: bool)
      requires Sound() && Part in disk.files && IsLine(line)
      requires Fits(PartData(disk.files), |line|, opts.rotateSize)
      modifies disk
      ensures Forward() && n <= |line| && (ok ==> n == |line|)
      ensures disk.files == old(disk.files)[Part :=
                if ok then Flushed(Grown(old(disk.files)[Part], line)) else Grown(old(disk.files)[Part], line[..n])]
      ensures disk.faults == old(disk.faults) ==> ok
    {
      hide Lawful, Fitting;
      n, ok := Grow(line);
      if ok {
        assert line[..n] == line;
        ok := Flush();
      }
    }

    method Grow(line: Bytes) returns (n: nat, ok: bool)
      requires Sound() && Part in disk.files && IsLine(line)
      requires Fits(PartData(disk.files), |line|, opts.rotateSize)
      modifies disk
      ensures Forward() && n <= |line| && (ok ==> n == |line|)
      ensures disk.files == old(disk.files)[Part := Grown(old(disk.files)[Part], line[..n])]
      ensures disk.faults == old(disk.faults) ==> ok
    {
      ghost var fs := disk.files;
      n, ok := disk.Write(line);
      GrowHarmless(fs, disk.files, line, n, opts.rotateSize, disk.probesHonest);
      Advances(ok);
    }

    lemma EndsClean(d: Bytes, line: Bytes)
      requires IsLine(line)
      ensures Clean(d + line)
    {
      assert (d + line)[|d + line| - 1] == line[|line| - 1];
    }

    // The two calls of an append, given up on when either fails.
    method PutOrAbandon(line: Bytes) returns (n: nat, ok: bool)
      requires Valid() && open && IsLine(line)
      requires Fits(PartData(disk.files), |line|, opts.rotateSize)
      modifies this`open, this`size, this`openedAt, this`firstTS, disk
      ensures Forward() && SameBut(old(disk.files), disk.files, {Part}) && Part in disk.files
      ensures if ok
              then disk.files[Part] == Flushed(Grown(old(disk.files)[Part], line)) && n == |line|
                && open && size == old(size) && openedAt == old(openedAt) && firstTS == old(firstTS)
              else old(PartData(disk.files)) <= PartData(disk.files) <= old(PartData(disk.files)) + line && !open
      ensures !ok && disk.cutHolds ==> PartData(disk.files) == old(PartData(disk.files))
      ensures disk.faults == old(disk.faults) ==> ok
    {
      hide Lawful, Fitting;
      ghost var before := PartData(disk.files);
      n, ok := Put(line);
      if !ok {
        Abandon(n, before);
      }
    }

    // The append of line, now durable, returns nil.
    method Acknowledge(line: Bytes)
      requires Sound()
      requires Hypothesis() && AllSafe(disk.history) ==> Safe(disk.files, disk.acked + [line])
      modifies disk`acked, disk`history
      ensures Acked(line)
    {
      disk.Acknowledge(line);
      RunGrows(old(disk.history), Snapshot(disk.files, disk.acked, false), opts.rotateSize, disk.probesHonest);
    }

    // Like Forward, with line acknowledged as well.
    twostate predicate Acked(line: Bytes)
      reads disk
    {
      && Sound()
      && old(disk.history) <= disk.history
      && disk.acked == old(disk.acked) + [line]
      && (Hypothesis() && AllSafe(old(disk.history)) ==> AllSafe(disk.history))
      && (Lawful(old(disk.history), disk.probesHonest) ==> Lawful(disk.history, disk.probesHonest))
      && (Fitting(old(disk.history), opts.rotateSize) ==> Fitting(disk.history, opts.rotateSize))
    }

    // Write and fsync one line, the file being at a line boundary whenever the hypothesis holds.
    method WriteLine(line: Bytes, now: int, receivedAt: int) returns (ok: bool)
      requires Valid() && open && IsLine(line)
      requires Hypothesis() ==> Clean(PartData(disk.files))
      requires Fits(PartData(disk.files), |line|, opts.rotateSize)
      modifies this`open, this`size, this`openedAt, this`firstTS, disk
      ensures Valid() && old(disk.faults) <= disk.faults
      ensures if ok then Acked(line) else Forward()
      ensures SameBut(old(disk.files), disk.files, {Part}) && Part in disk.files
      ensures if ok
              then disk.files[Part] == Flushed(Grown(old(disk.files)[Part], line)) && open
              else old(PartData(disk.files)) <= PartData(disk.files) <= old(PartData(disk.files)) + line && !open
      ensures !ok && disk.cutHolds ==> PartData(disk.files) == old(PartData(disk.files))
      ensures ok ==> if old(size) == 0 then openedAt == Some(now) && firstTS == Some(receivedAt)
                     else openedAt == old(openedAt) && firstTS == old(firstTS)
      ensures disk.faults == old(disk.faults) ==> ok
    {
      hide Lawful, Fitting;
      ghost var fs := disk.files;
      var n;
      n, ok := PutOrAbandon(line);
      if !ok {
        return;
      }
      assert disk.files == fs[Part := disk.files[Part]];
      if Hypothesis() && AllSafe(disk.history) {
        assert disk.history[|old(disk.history)| - 1] == old(disk.history)[|old(disk.history)| - 1];
        SafeAfterAck(fs, disk.acked, line);
      }
      EndsClean(PartData(fs), line);
      Acknowledge(line);
      if size == 0 {
        firstTS, openedAt := Some(receivedAt), Some(now);
      }
      size := size + n;
    }

    // Whether an append of n bytes at now finds the file due; a file still to be opened counts
    // as just opened when empty, and as of unknown age when not.
    ghost predicate RotationDue(n: nat, now: int)
      reads this, disk
    {
      var d := PartData(disk.files);
      ShouldRotate(opts, |d|, if open then openedAt else if d == [] then Some(now) else None, n, now)
    }

    // Append one encoded line, rotating first when due. Success means the line is durable and unmerged.
    method Append(line: Bytes, now: int, receivedAt: int) returns (ok: bool, ghost k: Key)
      requires Valid() && IsLine(line)
      modifies this`open, this`size, this`openedAt, this`firstTS, this`num, disk
      ensures Valid()
      ensures if ok then Acked(line) else Forward()
      ensures closed ==> !ok && disk.files == old(disk.files)
      ensures if ok
              then Appended(old(disk.files), disk.files, line, old(RotationDue(|line|, now)), k, Setup())
              else AppendFailed(old(disk.files), disk.files, line, old(RotationDue(|line|, now)), k, Setup())
      ensures ok && (old(RotationDue(|line|, now)) || old(PartData(disk.files)) == []) ==>
                openedAt == Some(now) && firstTS == Some(receivedAt)
      ensures ok && !old(RotationDue(|line|, now)) && old(open) && old(size) > 0 ==>
                openedAt == old(openedAt) && firstTS == old(firstTS)
      ensures ok && old(RotationDue(|line|, now)) && old(open) && old(firstTS).Some? &&
              Cut(old(PartData(disk.files))) != [] ==>
                k.stamp == StampOf(old(firstTS).value)
      // The line starts a new file exactly when the present one would outgrow RotateSize, is RotateEvery old,
      // or is of unknown age; a file taken up again with content is.
      ensures ok && old(PartData(disk.files)) != [] ==>
                PartData(disk.files) ==
                  if || (opts.rotateSize > 0 && |old(PartData(disk.files))| + |line| > opts.rotateSize)
                     || (opts.rotateEvery > 0 && (!old(open) || old(openedAt).None?))
                     || (opts.rotateEvery > 0 && old(open) && old(openedAt).Some? &&
                         now - old(openedAt).value >= opts.rotateEvery)
                  then line else old(PartData(disk.files)) + line
      ensures ok && old(PartData(disk.files)) == [] ==> PartData(disk.files) == line
      // With an age limit no line goes into a file that is RotateEvery old.
      ensures ok && opts.rotateEvery > 0 ==> openedAt.Some? && now - openedAt.value < opts.rotateEvery
      ensures disk.faults == old(disk.faults) && !closed ==> ok
    {
      hide Lawful, Fitting, AllSafe, GoodFiles;
      k := Key(0, 0);
      if closed {
        return false, k;
      }
      ok, k := Prepare(|line|, now);
      ghost var mid := disk.files;
      if ok {
        ok := WriteLine(line, now, receivedAt);
        AppendThrough(old(disk.files), mid, disk.files, line, old(RotationDue(|line|, now)), k, Setup());
      }
    }

    // Have a file open that may take n more bytes now, rotating the present one away when due.
    method Prepare(n: nat, now: int) returns (ok: bool, ghost k: Key)
      requires Valid()
      modifies this`open, this`size, this`openedAt, this`firstTS, this`num, disk
      ensures Valid() && Forward()
      ensures if ok
              then open && Prepared(old(disk.files), disk.files, old(RotationDue(n, now)), k, Setup())
              else AppendFailed(old(disk.files), disk.files, [], old(RotationDue(n, now)), k, Setup())
      ensures ok && Hypothesis() ==> Clean(PartData(disk.files))
      ensures ok ==> Fits(PartData(disk.files), n, opts.rotateSize)
      // A non-empty file is left for an empty one exactly when it would outgrow RotateSize, is RotateEvery old,
      // or is of unknown age.
      ensures ok && old(PartData(disk.files)) != [] ==>
                PartData(disk.files) ==
                  if || (opts.rotateSize > 0 && |old(PartData(disk.files))| + n > opts.rotateSize)
                     || (opts.rotateEvery > 0 && (!old(open) || old(openedAt).None?))
                     || (opts.rotateEvery > 0 && old(open) && old(openedAt).Some? &&
                         now - old(openedAt).value >= opts.rotateEvery)
                  then [] else old(PartData(disk.files))
      ensures ok && old(PartData(disk.files)) == [] ==> PartData(disk.files) == []
      ensures ok && opts.rotateEvery > 0 && PartData(disk.files) != [] ==>
                openedAt.Some? && now - openedAt.value < opts.rotateEvery
      ensures ok && !old(RotationDue(n, now)) && old(open) ==> openedAt == old(openedAt) && firstTS == old(firstTS)
      ensures ok && old(RotationDue(n, now)) && old(open) && old(firstTS).Some? &&
              Cut(old(PartData(disk.files))) != [] ==>
                k.stamp == StampOf(old(firstTS).value)
      ensures disk.faults == old(disk.faults) ==> ok
    {
      hide Lawful, Fitting, AllSafe, GoodFiles, Renamed, Repaired, CutEnd, CrashOf;
      k := Key(0, 0);
      if !open {
        ok := Open(now);
        if !ok {
          return;
        }
      }
      ok := true;
      if ShouldRotate(opts, size, openedAt, n, now) {
        ghost var fs := disk.files;
        ok, k := Rotate();
        if !ok {
          return;
        }
        ghost var mid := disk.files;
        ok := Open(now);
        assert disk.files - {Part} == mid;
        assert fs == old(disk.files);
      }
    }

    // Finish the open file. A second Close repeats the first one's result and touches nothing.
    method Close() returns (ok: bool, ghost k: Key)
      requires Valid()
      modifies this, disk
      ensures Forward() && Valid() && closed && ok == closeOk
      ensures old(closed) ==> ok == old(closeOk) && disk.files == old(disk.files)
      ensures !old(closed) && !old(open) ==> ok && disk.files == old(disk.files)
      ensures !old(closed) && old(open) ==>
                if ok then RotatedAway(old(disk.files), disk.files, k, Setup())
                else CutOrKept(old(disk.files), disk.files)
      ensures disk.faults == old(disk.faults) && !old(closed) ==> ok
    {
      hide Lawful, Fitting, AllSafe, GoodFiles;
      if closed {
        return closeOk, Key(0, 0);
      }
      closed := true;
      ok, k := Rotate();
      closeOk := ok;
    }

    // Remove temporary compressed files and, with compression on, compress every plain finished file.
    method Sweep() returns (ok: bool)
      requires Sound()
      modifies disk
      ensures Forward()
      ensures Swept(old(disk.files), disk.files)
      ensures disk.faults == old(disk.faults) ==>
                && ok
                && (forall k :: Tmp(k) !in disk.files)
                && (opts.gzip ==> forall k :: Plain(k) !in disk.files)
    {
      hide Lawful, Fitting, AllSafe, GoodFiles;
      ok := Tick();
      if !ok {
        return;
      }
      var plain := set n | n in disk.files && n.Plain?;
      ok := SweepTmp(set n | n in disk.files && n.Tmp?);
      if ok && opts.gzip {
        ghost var fs := disk.files;
        SweepPlain(plain);
        SweptThrough(old(disk.files), fs, disk.files);
      }
    }

    method SweepTmp(todo: set<Name>) returns (ok: bool)
      requires Sound()
      requires todo == set n | n in disk.files && n.Tmp?
      modifies disk
      ensures Forward() && SameBut(old(disk.files), disk.files, todo)
      ensures ok ==> forall k :: Tmp(k) !in disk.files
      ensures disk.faults == old(disk.faults) ==> ok
    {
      hide Lawful, Fitting, AllSafe, GoodFiles;
      var interrupted := todo;
      while interrupted != {}
        invariant Forward() && SameBut(old(disk.files), disk.files, todo)
        invariant interrupted <= todo
        invariant forall k :: Tmp(k) in disk.files ==> Tmp(k) in interrupted
      {
        var n :| n in interrupted;
        interrupted := interrupted - {n};
        ok := RemoveTmp(n.key);
        if !ok {
          return;
        }
      }
      ok := true;
    }

    method SweepPlain(todo: set<Name>)
      requires Sound()
      requires forall k :: Tmp(k) !in disk.files
      requires todo == set n | n in disk.files && n.Plain?
      modifies disk
      ensures Forward() && Swept(old(disk.files), disk.files)
      ensures disk.faults == old(disk.faults) ==>
                (forall k :: Tmp(k) !in disk.files) && (forall k :: Plain(k) !in disk.files)
    {
      hide Lawful, Fitting, AllSafe, GoodFiles;
      var plain := todo;
      while plain != {}
        invariant Forward() && Swept(old(disk.files), disk.files)
        invariant forall n :: n in plain ==> n.Plain? && n in disk.files
        invariant disk.faults == old(disk.faults) ==> forall k :: Tmp(k) !in disk.files
        invariant disk.faults == old(disk.faults) ==> forall k :: Plain(k) in disk.files ==> Plain(k) in plain
      {
        var n :| n in plain;
        plain := plain - {n};
        ghost var fs := disk.files;
        var _, _ := Compress(n.key);
        CompressIsSweep(fs, disk.files, n.key);
        SweptThrough(old(disk.files), fs, disk.files);
      }
    }

    // Repair what a previous run left: finish its open file, then sweep.
    method Recover() returns (ok: bool, ghost k: Key, ghost mid: Files)
      requires Sound() && !open
      modifies this`num, disk
      ensures Forward() && (ok ==> Valid())
      ensures ok ==> Part !in disk.files && Recovered(old(disk.files), mid, disk.files, k, Setup())
      ensures !ok ==> RecoverFailed(old(disk.files), mid, disk.files, k, Setup())
      ensures disk.faults == old(disk.faults) ==>
                && ok
                && (forall k :: Tmp(k) !in disk.files)
                && (opts.gzip ==> forall k :: Plain(k) !in disk.files)
    {
      hide Lawful, Fitting, AllSafe, GoodFiles;
      k, mid := Key(0, 0), disk.files;
      ok := Tick();
      if !ok {
        return;
      }
      if Part in disk.files {
        ok, k := RotateOut(None);
        if !ok {
          return;
        }
      }
      mid := disk.files;
      ok := Sweep();
    }

    // Open a store over whatever a previous run and its crash left; nil when the tree cannot be repaired.
    static method OpenStore(opts: Options, disk: Disk) returns (s: Store?, ghost k: Key, ghost mid: Files)
      requires disk.Valid()
      modifies disk
      ensures disk.Valid() && old(disk.history) <= disk.history && disk.acked == old(disk.acked)
      ensures Lawful(old(disk.history), disk.probesHonest) ==> Lawful(disk.history, disk.probesHonest)
      ensures Fitting(old(disk.history), opts.rotateSize) ==> Fitting(disk.history, opts.rotateSize)
      ensures (opts.rotateEvery > 0 || disk.cutHolds) && disk.probesHonest && AllSafe(old(disk.history)) ==>
                AllSafe(disk.history)
      ensures s != null ==> fresh(s) && s.Valid() && s.opts == opts && s.disk == disk && !s.open && !s.closed
      ensures s != null ==>
                && Part !in disk.files
                && Recovered(old(disk.files), mid, disk.files, k, Mode(opts.gzip, disk.probesHonest))
      ensures s == null ==> RecoverFailed(old(disk.files), mid, disk.files, k, Mode(opts.gzip, disk.probesHonest))
      ensures disk.faults == old(disk.faults) ==> s != null
    {
      k, mid := Key(0, 0), disk.files;
      var store := new Store.Raw(opts, disk);
      var made := store.Tick();
      if !made {
        return null, k, mid;
      }
      var ok;
      ok, k, mid := store.Recover();
      s := if ok then store else null;
    }
  }
}
