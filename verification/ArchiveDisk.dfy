/** The disk under one archive store: files with a synced prefix, single I/O calls
    that may fail, and what a crash may leave of them.

    A file remembers how much of it has been fsynced. A crash keeps that prefix and
    may leave anything after it, unless nothing was written or truncated since the
    last fsync. Create, rename and remove are atomic and survive a crash. */
module ArchiveDisk {

  type Byte = b: int | 0 <= b < 256

  type Bytes = seq<Byte>

  const NEWLINE: Byte := 10

  // Second of the first record, and the number that tells files of one second apart.
  datatype Key = Key(stamp: int, num: nat)

  // Part is the open file; Plain, Gz and Tmp are "<key>.jsonl", ".jsonl.gz" and ".jsonl.gz.tmp".
  // A Gz or Tmp file is represented by the bytes its stream decompresses to.
  datatype Name = Part | Plain(key: Key) | Gz(key: Key) | Tmp(key: Key)

  datatype File = File(data: Bytes, synced: nat, dirty: bool)

  type Files = map<Name, File>

  predicate GoodFile(f: File) {
    && f.synced <= |f.data|
    && (!f.dirty ==> f.synced == |f.data|)
  }

  predicate GoodFiles(fs: Files) {
    forall n :: n in fs ==> GoodFile(fs[n])
  }

  function Grown(f: File, more: Bytes): File {
    if more == [] then f else File(f.data + more, f.synced, true)
  }

  function Shortened(f: File, size: nat): File
    requires size <= |f.data|
  {
    File(f.data[..size], if f.synced < size then f.synced else size, true)
  }

  function Flushed(f: File): File {
    File(f.data, |f.data|, false)
  }

  // What a crash (of the process or of the machine) may turn f into.
  predicate CrashOf(f: File, g: File) {
    && GoodFile(g)
    && (!f.dirty ==> g == f)
    && f.synced <= g.synced
    && f.synced <= |f.data| && f.data[..f.synced] <= g.data
  }

  predicate CrashOfFiles(fs: Files, gs: Files) {
    && fs.Keys == gs.Keys
    && forall n :: n in fs ==> CrashOf(fs[n], gs[n])
  }

  // ----- lines -----

  predicate IsLine(l: Bytes) {
    && |l| > 0
    && l[|l| - 1] == NEWLINE
    && forall i :: 0 <= i < |l| - 1 ==> l[i] != NEWLINE
  }

  // l is a whole line of d at off: it starts at a line boundary and is not merged with anything.
  predicate LineAt(d: Bytes, off: nat, l: Bytes) {
    && off + |l| <= |d|
    && d[off..off + |l|] == l
    && (off == 0 || d[off - 1] == NEWLINE)
  }

  predicate Clean(d: Bytes) {
    d == [] || d[|d| - 1] == NEWLINE
  }

  // Length of the longest prefix of d that is empty or ends in a newline.
  function CutEnd(d: Bytes): (n: nat)
    ensures n <= |d| && Clean(d[..n])
    ensures forall m :: n < m <= |d| ==> !Clean(d[..m])
  {
    if Clean(d) then
      assert d[..|d|] == d;
      |d|
    else
      var n := CutEnd(d[..|d| - 1]);
      assert d[..|d|] == d;
      assert forall m :: 0 <= m < |d| ==> d[..|d| - 1][..m] == d[..m];
      n
  }

  predicate DurableAt(f: File, off: nat, l: Bytes) {
    LineAt(f.data, off, l) && off + |l| <= f.synced
  }

  // ----- where acknowledged lines live -----

  datatype Loc = Cur | Fin(key: Key)

  datatype Spot = Spot(loc: Loc, off: nat)

  predicate Taken(fs: Files, k: Key) {
    Plain(k) in fs || Gz(k) in fs
  }

  // l is durably in place at s. While a plain file and its compressed twin both
  // exist, either may be the one that survives, so both must hold the line.
  predicate Holds(fs: Files, s: Spot, l: Bytes) {
    match s.loc
    case Cur => Part in fs && DurableAt(fs[Part], s.off, l)
    case Fin(k) =>
      && Taken(fs, k)
      && (Plain(k) in fs ==> DurableAt(fs[Plain(k)], s.off, l))
      && (Gz(k) in fs ==> DurableAt(fs[Gz(k)], s.off, l))
  }

  ghost predicate Placed(fs: Files, acked: seq<Bytes>, spots: seq<Spot>) {
    && |spots| == |acked|
    && (forall i :: 0 <= i < |acked| ==> IsLine(acked[i]) && Holds(fs, spots[i], acked[i]))
    && (forall i, j :: 0 <= i < j < |spots| ==> spots[i] != spots[j])
  }

  // Every acknowledged append has a place of its own on disk.
  ghost predicate Safe(fs: Files, acked: seq<Bytes>) {
    exists spots :: Placed(fs, acked, spots)
  }

  // Whatever line is in place at a in fs is in place at b, same offset, in gs.
  ghost predicate Carries(fs: Files, a: Loc, gs: Files, b: Loc) {
    forall off: nat, l: Bytes :: IsLine(l) && Holds(fs, Spot(a, off), l) ==> Holds(gs, Spot(b, off), l)
  }

  lemma SafeIfCarried(fs: Files, gs: Files, acked: seq<Bytes>)
    requires Safe(fs, acked)
    requires forall a: Loc :: Carries(fs, a, gs, a)
    ensures Safe(gs, acked)
  {
    var spots: seq<Spot> :| Placed(fs, acked, spots);
    forall i | 0 <= i < |acked|
      ensures Holds(gs, spots[i], acked[i])
    {
      assert Carries(fs, spots[i].loc, gs, spots[i].loc);
      assert Holds(fs, Spot(spots[i].loc, spots[i].off), acked[i]);
    }
    assert Placed(gs, acked, spots);
  }

  function Moved(s: Spot, k: Key): Spot {
    if s.loc == Cur then Spot(Fin(k), s.off) else s
  }

  // Renaming the open file to a fresh key keeps every line in a place of its own.
  lemma SafeIfMoved(fs: Files, gs: Files, acked: seq<Bytes>, k: Key)
    requires Safe(fs, acked) && !Taken(fs, k)
    requires Carries(fs, Cur, gs, Fin(k))
    requires forall a: Key :: a != k ==> Carries(fs, Fin(a), gs, Fin(a))
    ensures Safe(gs, acked)
  {
    var spots: seq<Spot> :| Placed(fs, acked, spots);
    var moved := seq(|spots|, i requires 0 <= i < |spots| => Moved(spots[i], k));
    forall i | 0 <= i < |acked|
      ensures spots[i].loc != Fin(k) && Holds(gs, moved[i], acked[i])
    {
      assert Holds(fs, Spot(spots[i].loc, spots[i].off), acked[i]);
      assert spots[i].loc != Fin(k);
    }
    assert Placed(gs, acked, moved);
  }

  // An appended and fsynced line gets a place of its own, given a clean line boundary.
  lemma SafeAfterAck(fs: Files, acked: seq<Bytes>, l: Bytes)
    requires Safe(fs, acked) && IsLine(l)
    requires Part in fs && GoodFile(fs[Part]) && Clean(fs[Part].data)
    ensures Safe(fs[Part := Flushed(Grown(fs[Part], l))], acked + [l])
  {
    var spots: seq<Spot> :| Placed(fs, acked, spots);
    var off := |fs[Part].data|;
    var gs := fs[Part := Flushed(Grown(fs[Part], l))];
    forall i | 0 <= i < |acked|
      ensures spots[i] != Spot(Cur, off) && Holds(gs, spots[i], acked[i])
    {
      assert Holds(fs, spots[i], acked[i]);
      var o := spots[i].off;
      assert fs[Part].data + l == gs[Part].data;
      if spots[i].loc == Cur {
        assert gs[Part].data[o..o + |acked[i]|] == acked[i];
      }
    }
    assert gs[Part].data[off..off + |l|] == l;
    assert Placed(gs, acked + [l], spots + [Spot(Cur, off)]);
  }

  ghost predicate LinesKept(f: File, g: File) {
    forall off: nat, l: Bytes :: IsLine(l) && DurableAt(f, off, l) ==> DurableAt(g, off, l)
  }

  lemma GrowKeepsLines(f: File, more: Bytes)
    requires GoodFile(f)
    ensures GoodFile(Grown(f, more)) && LinesKept(f, Grown(f, more))
  {
    forall off: nat, l: Bytes | IsLine(l) && DurableAt(f, off, l)
      ensures DurableAt(Grown(f, more), off, l)
    {
      assert (f.data + more)[off..off + |l|] == f.data[off..off + |l|];
    }
  }

  lemma FlushKeepsLines(f: File)
    requires GoodFile(f)
    ensures GoodFile(Flushed(f)) && LinesKept(f, Flushed(f))
  {
  }

  // Cutting a file at or after every durable line loses none of them.
  lemma ShortenKeepsLines(f: File, size: nat)
    requires GoodFile(f) && size <= |f.data|
    requires f.synced <= size || size == CutEnd(f.data)
    ensures GoodFile(Shortened(f, size)) && LinesKept(f, Shortened(f, size))
  {
    var g := Shortened(f, size);
    forall off: nat, l: Bytes | IsLine(l) && DurableAt(f, off, l)
      ensures DurableAt(g, off, l)
    {
      var end := off + |l|;
      assert f.data[..end][end - 1] == f.data[off..end][|l| - 1] == NEWLINE;
      assert Clean(f.data[..end]);
      assert end <= size;
      assert g.data[off..end] == f.data[off..end];
    }
  }

  lemma SafeIfPartChanged(fs: Files, g: File, acked: seq<Bytes>)
    requires Safe(fs, acked)
    requires Part in fs ==> LinesKept(fs[Part], g)
    ensures Safe(fs[Part := g], acked)
  {
    var gs := fs[Part := g];
    forall a: Loc
      ensures Carries(fs, a, gs, a)
    {
    }
    SafeIfCarried(fs, gs, acked);
  }

  // ----- crashes -----

  lemma CrashKeepsLine(f: File, g: File, off: nat, l: Bytes)
    requires GoodFile(f) && CrashOf(f, g) && DurableAt(f, off, l) && |l| > 0
    ensures DurableAt(g, off, l)
  {
    assert f.data[..f.synced][off..off + |l|] == l;
    assert g.data[off..off + |l|] == g.data[..f.synced][off..off + |l|];
    assert off > 0 ==> g.data[off - 1] == f.data[..f.synced][off - 1];
  }

  lemma CrashKeepsSafe(fs: Files, gs: Files, acked: seq<Bytes>)
    requires GoodFiles(fs) && CrashOfFiles(fs, gs) && Safe(fs, acked)
    ensures GoodFiles(gs) && Safe(gs, acked)
  {
    forall a: Loc
      ensures Carries(fs, a, gs, a)
    {
      forall off: nat, l: Bytes | IsLine(l) && Holds(fs, Spot(a, off), l)
        ensures Holds(gs, Spot(a, off), l)
      {
        forall n | n in fs && DurableAt(fs[n], off, l)
          ensures DurableAt(gs[n], off, l)
        {
          CrashKeepsLine(fs[n], gs[n], off, l);
        }
      }
    }
    SafeIfCarried(fs, gs, acked);
  }

  // Lines in different places of one file never overlap: no acknowledged byte counts twice.
  lemma LinesDisjoint(d: Bytes, a: nat, l: Bytes, b: nat, m: Bytes)
    requires IsLine(l) && IsLine(m) && LineAt(d, a, l) && LineAt(d, b, m) && a < b
    ensures a + |l| <= b
  {
  }

  // Appended bytes form a line of their own exactly when the file ended at a line boundary.
  lemma AppendUnmergedIffClean(d: Bytes, l: Bytes)
    requires IsLine(l)
    ensures LineAt(d + l, |d|, l) <==> Clean(d)
    ensures !Clean(d) ==> forall off: nat :: LineAt(d + l, off, l) ==> off + |l| < |d + l|
  {
    assert (d + l)[|d|..|d| + |l|] == l;
    assert |d| > 0 ==> (d + l)[|d| - 1] == d[|d| - 1];
  }

  // ----- the disk as an object -----

  // The tree, the lines acknowledged by then, and whether it is what a crash left.
  datatype Snapshot = Snapshot(files: Files, acked: seq<Bytes>, crashed: bool)

  // Every state the disk went through held every line acknowledged by then.
  ghost predicate AllSafe(h: seq<Snapshot>) {
    forall i :: 0 <= i < |h| ==> Safe(h[i].files, h[i].acked)
  }

  /** One directory tree. Each method is one system call: it returns whether the call
      succeeded, and any of them may fail. `history` records the tree after every call,
      `acked` the lines whose Append has returned nil, `faults` the calls that failed.

      cutHolds and probesHonest are the two hypotheses a durability claim needs: the
      Truncate of a failed append succeeds, and a stat that finds nothing is right. */
  class Disk {
    const cutHolds: bool
    const probesHonest: bool
    var files: Files
    var acked: seq<Bytes>
    var history: seq<Snapshot>
    ghost var faults: nat

    ghost predicate Valid()
      reads this
    {
      && GoodFiles(files)
      && |history| > 0
      && (forall i :: 0 <= i < |history| ==> GoodFiles(history[i].files))
      && history[|history| - 1].files == files && history[|history| - 1].acked == acked
    }

    constructor (cutHolds: bool, probesHonest: bool)
      ensures Valid() && history == [Snapshot(map[], [], false)] && AllSafe(history)
      ensures this.cutHolds == cutHolds && this.probesHonest == probesHonest
    {
      this.cutHolds, this.probesHonest := cutHolds, probesHonest;
      files, acked, history, faults := map[], [], [Snapshot(map[], [], false)], 0;
      new;
      assert Placed(map[], [], []);
    }

    // One call happened: it is on record, and acknowledged nothing.
    twostate predicate Called(ok: bool)
      reads this
    {
      && Valid()
      && acked == old(acked)
      && history == old(history) + [Snapshot(files, acked, false)]
      && faults == old(faults) + (if ok then 0 else 1)
    }

    method Record(ghost ok: bool)
      modifies `history, `faults
      ensures history == old(history) + [Snapshot(files, acked, false)]
      ensures faults == old(faults) + (if ok then 0 else 1)
    {
      history := history + [Snapshot(files, acked, false)];
      faults := faults + if ok then 0 else 1;
    }

    // A call that only reads, or whose effect the model does not see.
    method Touch() returns (ok: bool)
      requires Valid()
      modifies this
      ensures Called(ok) && files == old(files)
    {
      ok := *;
      Record(ok);
    }

    // exists(name): a failing stat reads as "not there".
    method Exists(name: Name) returns (there: bool)
      requires Valid()
      modifies this
      ensures there ==> name in files
      ensures probesHonest ==> there == (name in files)
      ensures Called(there == (name in files)) && files == old(files)
    {
      there := *;
      there := name in files && (probesHonest || there);
      Record(there == (name in files));
    }

    method OpenPart() returns (ok: bool)
      requires Valid()
      modifies this
      ensures Called(ok)
      ensures files == if ok && Part !in old(files) then old(files)[Part := File([], 0, false)] else old(files)
    {
      ok := *;
      if ok && Part !in files {
        files := files[Part := File([], 0, false)];
      }
      Record(ok);
    }

    method Write(line: Bytes) returns (n: nat, ok: bool)
      requires Valid() && Part in files
      modifies this
      ensures n <= |line| && (ok ==> n == |line|)
      ensures files == old(files)[Part := Grown(old(files)[Part], line[..n])]
      ensures Called(ok)
    {
      ok, n := *, *;
      if ok || n > |line| {
        n := |line|;
      }
      files := files[Part := Grown(files[Part], line[..n])];
      Record(ok);
    }

    method Sync(name: Name) returns (ok: bool)
      requires Valid() && name in files
      modifies this
      ensures files == if ok then old(files)[name := Flushed(old(files)[name])] else old(files)
      ensures Called(ok)
    {
      ok := *;
      if ok {
        files := files[name := Flushed(files[name])];
      }
      Record(ok);
    }

    method Truncate(size: nat, sure: bool) returns (ok: bool)
      requires Valid() && Part in files && size <= |files[Part].data|
      modifies this
      ensures sure ==> ok
      ensures files == if ok then old(files)[Part := Shortened(old(files)[Part], size)] else old(files)
      ensures Called(ok)
    {
      ok := *;
      ok := ok || sure;
      if ok {
        files := files[Part := Shortened(files[Part], size)];
      }
      Record(ok);
    }

    method Remove(name: Name) returns (ok: bool)
      requires Valid()
      modifies this
      ensures files == if ok then old(files) - {name} else old(files)
      ensures Called(ok)
    {
      ok := *;
      if ok {
        files := files - {name};
      }
      Record(ok);
    }

    method Rename(from: Name, to: Name) returns (ok: bool)
      requires Valid() && from in files && from != to
      modifies this
      ensures files == if ok then (old(files) - {from})[to := old(files)[from]] else old(files)
      ensures Called(ok)
    {
      ok := *;
      if ok {
        files := (files - {from})[to := files[from]];
      }
      Record(ok);
    }

    // Create or truncate the temporary file and fill it from the plain one; a failed copy leaves any part of it.
    method Copy(k: Key) returns (ok: bool)
      requires Valid() && Plain(k) in files
      modifies this
      ensures files.Keys == old(files).Keys || files.Keys == old(files).Keys + {Tmp(k)}
      ensures forall n :: n in files && n != Tmp(k) ==> files[n] == old(files)[n]
      ensures ok ==> Tmp(k) in files && files[Tmp(k)].data == files[Plain(k)].data
      ensures Called(ok)
    {
      ok := *;
      var created := *;
      var n :| 0 <= n <= |files[Plain(k)].data|;
      if ok {
        n := |files[Plain(k)].data|;
      }
      if ok || created {
        files := files[Tmp(k) := File(files[Plain(k)].data[..n], 0, true)];
      }
      Record(ok);
    }

    // The process or the machine dies right after call number i and leaves gs; nothing after it happened.
    method Crash(i: nat, gs: Files)
      requires Valid() && i < |history| && CrashOfFiles(history[i].files, gs)
      modifies this
      ensures Valid()
      ensures files == gs && acked == old(history)[i].acked
      ensures history == old(history)[..i + 1] + [Snapshot(files, acked, true)]
    {
      files, acked := gs, history[i].acked;
      history := history[..i + 1] + [Snapshot(files, acked, true)];
    }

    // The record just fsynced is acknowledged: its Append returns nil.
    method Acknowledge(line: Bytes)
      requires Valid()
      modifies `acked, `history
      ensures Valid() && acked == old(acked) + [line]
      ensures history == old(history) + [Snapshot(files, acked, false)]
    {
      acked := acked + [line];
      history := history + [Snapshot(files, acked, false)];
    }
  }
}
