/** What the archive store guarantees over whole runs, what its finished files look like,
    and what happens where its hypotheses fail. */
module ArchiveRuns {
  import opened Wrappers
  import opened ArchiveDisk
  import opened ArchiveFiles
  import opened ArchiveStore

  // ----- acknowledged lines -----

  /** Any run: stores opened one after another, each with options of its own, appends and
      closes in any order, any I/O call failing, and a crash possible inside every operation
      as well as between them. After every single call every acknowledged line is durable,
      complete, unmerged, and in a place no other acknowledged line uses. */
  method Life(disk: Disk, steps: nat)
    requires disk.Valid() && AllSafe(disk.history) && disk.probesHonest
    modifies disk
    ensures disk.Valid() && AllSafe(disk.history)
    ensures Safe(disk.files, disk.acked)
  {
    var store: Store? := null;
    for step := 0 to steps
      invariant disk.Valid() && AllSafe(disk.history)
      invariant store != null ==> fresh(store) && store.disk == disk && store.Valid() && store.Hypothesis()
    {
      var since := |disk.history| - 1;
      if store == null {
        var opts: Options := *;
        if opts.rotateEvery > 0 || disk.cutHolds {
          var next, _, _ := Store.OpenStore(opts, disk);
          store := next;
        }
      } else if * {
        var line: Bytes := *;
        var now: int, receivedAt: int := *, *;
        if IsLine(line) {
          var _, _ := store.Append(line, now, receivedAt);
        }
      } else {
        var _, _ := store.Close();
      }
      if * {
        CrashSomewhere(disk, since);
        store := null;
      }
    }
    assert Safe(disk.history[|disk.history| - 1].files, disk.history[|disk.history| - 1].acked);
  }

  // A crash inside any call since call number `since`, leaving anything a crash may leave: every line
  // acknowledged by then is in place, and the run so far counts as one for its finished files.
  method CrashSomewhere(disk: Disk, since: nat)
    requires disk.Valid() && since < |disk.history|
    modifies disk
    ensures disk.Valid()
    ensures AllSafe(old(disk.history)) ==> AllSafe(disk.history)
    ensures Lawful(old(disk.history), disk.probesHonest) ==> Lawful(disk.history, disk.probesHonest)
    ensures forall limit :: Fitting(old(disk.history), limit) ==> Fitting(disk.history, limit)
    ensures disk.history[0] == old(disk.history[0])
    ensures exists i :: since <= i < |old(disk.history)| && disk.acked == old(disk.history)[i].acked
  {
    hide Lawful, Fitting;
    var i :| since <= i < |disk.history|;
    var gs: Files := *;
    if !CrashOfFiles(disk.history[i].files, gs) {
      gs := disk.history[i].files;
    }
    if AllSafe(disk.history) {
      CrashKeepsSafe(disk.history[i].files, gs, disk.history[i].acked);
    }
    CrashKeepsRun(disk.history, i, gs, disk.probesHonest);
    disk.Crash(i, gs);
  }

  lemma CrashKeepsRun(h: seq<Snapshot>, i: nat, gs: Files, honest: bool)
    requires i < |h| && CrashOfFiles(h[i].files, gs)
    ensures var crashed := h[..i + 1] + [Snapshot(gs, h[i].acked, true)];
            && (Lawful(h, honest) ==> Lawful(crashed, honest))
            && (forall limit :: Fitting(h, limit) ==> Fitting(crashed, limit))
  {
    hide Lawful, Fitting;
    var crashed := h[..i + 1] + [Snapshot(gs, h[i].acked, true)];
    forall limit: nat
      ensures (Lawful(h, honest) ==> Lawful(crashed, honest)) && (Fitting(h, limit) ==> Fitting(crashed, limit))
    {
      RunPrefix(h, i + 1, limit, honest);
      RunGrows(h[..i + 1], Snapshot(gs, h[i].acked, true), limit, honest);
    }
    assert Fitting(h, 0) ==> Fitting(crashed, 0);
  }

  // ----- finished files -----

  /** Any run of stores, each with options of its own: whatever call fails, and whatever the process or the
      machine stopping leaves of the tree, for any two trees of the record
      - a finished file once non-empty and ending in a newline stays so, and with truthful probes what a key
        stored it still stores, until a crash tears a file of that very key;
      - with truthful probes a key none of whose files had anything unsynced stores the same bytes for good;
      - a compressed file never has anything unsynced;
      - when every store has the same RotateSize and crashes only lose bytes, every file stays within that
        size or is a single line. */
  method LifeOfFiles(disk: Disk, rotateSize: Option<nat>, steps: nat)
    requires disk.Valid() && Lawful(disk.history, disk.probesHonest)
    requires rotateSize.Some? ==> Fitting(disk.history, rotateSize.value)
    modifies disk
    ensures disk.Valid() && disk.history[0] == old(disk.history[0])
    ensures Lawful(disk.history, disk.probesHonest)
    ensures forall i: nat, j: nat :: i <= j < |disk.history| ==> Upheld(disk.history, i, j, disk.probesHonest)
    ensures rotateSize.Some? ==> forall i: nat, j: nat ::
              i <= j < |disk.history| && LossyBetween(disk.history, i, j) &&
              Bounded(disk.history[i].files, rotateSize.value) ==>
                Bounded(disk.history[j].files, rotateSize.value)
  {
    hide Lawful, Fitting, Upheld, LossyBetween, Bounded;
    var store: Store? := null;
    for step := 0 to steps
      invariant disk.Valid() && disk.history[0] == old(disk.history[0])
      invariant Lawful(disk.history, disk.probesHonest)
      invariant rotateSize.Some? ==> Fitting(disk.history, rotateSize.value)
      invariant store != null ==> fresh(store) && store.disk == disk && store.Valid()
      invariant store != null && rotateSize.Some? ==> store.opts.rotateSize == rotateSize.value
    {
      var since := |disk.history| - 1;
      if store == null {
        var opts: Options := *;
        if rotateSize.Some? {
          opts := opts.(rotateSize := rotateSize.value);
        }
        var next, _, _ := Store.OpenStore(opts, disk);
        store := next;
      } else if * {
        var line: Bytes := *;
        var now: int, receivedAt: int := *, *;
        if IsLine(line) {
          var _, _ := store.Append(line, now, receivedAt);
        }
      } else {
        var _, _ := store.Close();
      }
      if * {
        CrashSomewhere(disk, since);
        store := null;
      }
    }
    RunUpholds(disk.history, rotateSize, disk.probesHonest);
  }

  lemma RunUpholds(h: seq<Snapshot>, rotateSize: Option<nat>, honest: bool)
    requires Lawful(h, honest) && (rotateSize.Some? ==> Fitting(h, rotateSize.value))
    ensures forall i: nat, j: nat :: i <= j < |h| ==> Upheld(h, i, j, honest)
    ensures rotateSize.Some? ==> forall i: nat, j: nat ::
              i <= j < |h| && LossyBetween(h, i, j) && Bounded(h[i].files, rotateSize.value) ==>
                Bounded(h[j].files, rotateSize.value)
  {
    hide Lawful, Fitting, Upheld, LossyBetween, Bounded;
    forall i: nat, j: nat | i <= j < |h|
      ensures Upheld(h, i, j, honest)
    {
      LawfulUpholds(h, i, j, honest);
    }
    if rotateSize.Some? {
      forall i: nat, j: nat |
        i <= j < |h| && LossyBetween(h, i, j) && Bounded(h[i].files, rotateSize.value)
        ensures Bounded(h[j].files, rotateSize.value)
      {
        FittingStaysBounded(h, i, j, rotateSize.value);
      }
    }
  }

  // In a run from an empty tree every finished file no crash tore is in shape; and once the compressed file
  // of a key stands alone, no crash and no call ever changes what the key stores.
  lemma RunFromEmpty(h: seq<Snapshot>, i: nat, j: nat, honest: bool, k: Key)
    requires i <= j < |h| && Lawful(h, honest) && h[0].files == map[]
    ensures UntornBetween(h, 0, j, k) ==> KeyShaped(h[j].files, k)
    ensures honest && Gz(k) in h[i].files && Plain(k) !in h[i].files ==>
              Stores(h[j].files, k, h[i].files[Gz(k)].data)
  {
    hide Lawful;
    LawfulUpholds(h, 0, i, honest);
    LawfulUpholds(h, 0, j, honest);
    LawfulUpholds(h, i, j, honest);
  }

  ghost predicate FinishedKept(fs: Files, gs: Files) {
    forall n :: n in fs && IsFinal(n) ==> n in gs && gs[n] == fs[n]
  }

  // ----- what a crash of the machine may tear -----

  // A finished file keeps its shape through every crash exactly when nothing in it is unsynced.
  lemma ShapeSurvivesCrashIffSettled(f: File)
    requires GoodFile(f) && EndsInNewline(f.data)
    ensures (forall g :: CrashOf(f, g) ==> EndsInNewline(g.data)) <==> !f.dirty
  {
    if f.dirty {
      var g := Torn(f);
      assert CrashOf(f, g) && !EndsInNewline(g.data);
    }
  }

  // What a crash may leave of an unsynced file: its synced bytes and a block of zeros.
  function Torn(f: File): (g: File)
    requires GoodFile(f) && f.dirty
    ensures CrashOf(f, g) && !EndsInNewline(g.data)
  {
    var torn := f.data[..f.synced] + [0];
    assert torn[..f.synced] == f.data[..f.synced];
    File(torn, |torn|, false)
  }

  // The open file was written to or cut, nothing was fsynced since, and it ends at a line boundary:
  // rotating it away finds nothing to cut, and so fsyncs nothing.
  predicate Unsettled(fs: Files) {
    Part in fs && fs[Part].dirty && Clean(fs[Part].data)
  }

  // The finished files of key k survive every crash in shape.
  ghost predicate SurvivesCrash(gs: Files, k: Key) {
    forall hs: Files, n: Name ::
      CrashOfFiles(gs, hs) && n in hs && IsFinal(n) && n.key == k ==> EndsInNewline(hs[n].data)
  }

  // A rotation leaves a file that a crash can tear exactly when the open file was unsettled and stays plain.
  lemma FinishedSurvivesIff(fs: Files, gs: Files, k: Key, m: Mode)
    requires GoodFiles(fs) && GoodFiles(gs) && RotatedAway(fs, gs, k, m) && m.honest && Cut(PartData(fs)) != []
    ensures SurvivesCrash(gs, k) <==> !(Unsettled(fs) && Plain(k) in gs)
    ensures !m.gzip ==> Plain(k) in gs
  {
    RotatedStores(fs, gs, k, m);
    CleanIsCut(PartData(fs));
    if Unsettled(fs) && Plain(k) in gs {
      var hs := gs[Plain(k) := Torn(gs[Plain(k)])];
      assert CrashOfFiles(gs, hs) && !EndsInNewline(hs[Plain(k)].data);
    }
  }

  // A run that ends so: a line is written, the process dies before the fsync, the next start finishes the
  // file as it is, and then the machine dies.
  lemma TornExample(k: Key)
    ensures
      var line: Bytes := [97, NEWLINE];
      var created: Files := map[Part := File([], 0, false)];
      var written := created[Part := Grown(created[Part], line)];
      var finished: Files := map[Plain(k) := written[Part]];
      var torn: Files := map[Plain(k) := Torn(finished[Plain(k)])];
      && IsLine(line)
      && CrashOfFiles(written, written) && Unsettled(written)
      && Recovered(written, finished, finished, k, Mode(false, true)) && Shaped(finished)
      && CrashOfFiles(finished, torn) && !Shaped(torn)
  {
    var line: Bytes := [97, NEWLINE];
    var created: Files := map[Part := File([], 0, false)];
    var written := created[Part := Grown(created[Part], line)];
    assert written[Part].data == line && Clean(line);
    CleanIsCut(line);
    assert MovedTo(written, k) == map[Plain(k) := written[Part]];
    assert written[Part := Repaired(written[Part])] == written;
    assert !KeyShaped(map[Plain(k) := Torn(File(line, 0, true))], k);
  }

  // ----- where a failed Truncate leads -----

  // After a failed Truncate left a partial line, the next line is written unmerged exactly when
  // an age limit is set or the size limit happens to force a rotation.
  lemma LeftoverUnmergedIff(o: Options, left: Bytes, line: Bytes, now: int)
    requires !Clean(left) && IsLine(line)
    ensures var base := if ShouldRotate(o, |left|, None, |line|, now) then [] else left;
            LineAt(base + line, |base|, line) <==>
              o.rotateEvery > 0 || (o.rotateSize > 0 && |left| + |line| > o.rotateSize)
  {
    AppendUnmergedIffClean(left, line);
    AppendUnmergedIffClean([], line);
  }

  // A run with neither: "a" is acknowledged, an append of "bc" fails with one byte on disk and
  // cannot truncate it, "d" is then written and fsynced and ends up merged into the line "bd".
  lemma MergedLineExample()
    ensures var o := Options(0, 0, false);
            var a, b, d := [97, NEWLINE], [98], [100, NEWLINE];
            var torn := map[Part := Grown(Flushed(File(a, 2, false)), b)];
            && IsLine(a) && IsLine(d)
            && Safe(torn, [a])
            && !ShouldRotate(o, |PartData(torn)|, None, |d|, 0)
            && !Safe(torn[Part := Flushed(Grown(torn[Part], d))], [a, d])
  {
    var a: Bytes, b: Bytes, d: Bytes := [97, NEWLINE], [98], [100, NEWLINE];
    var torn: Files := map[Part := Grown(Flushed(File(a, 2, false)), b)];
    assert torn[Part].data == [97, NEWLINE, 98];
    assert DurableAt(torn[Part], 0, a);
    assert Placed(torn, [a], [Spot(Cur, 0)]);
    var gs := torn[Part := Flushed(Grown(torn[Part], d))];
    var merged := gs[Part].data;
    assert merged == [97, NEWLINE, 98, 100, NEWLINE];
    assert merged[0..2] == [97, NEWLINE] && merged[1..3] == [NEWLINE, 98] && merged[2..4] == [98, 100];
    assert forall off: nat :: LineAt(merged, off, d) ==> off == 0 || off == 1 || off == 2 || off == 3;
    UnplacedIsLost(gs, [a, d], 1);
  }

  lemma UnplacedIsLost(fs: Files, acked: seq<Bytes>, i: nat)
    requires i < |acked|
    requires forall s: Spot :: !Holds(fs, s, acked[i])
    ensures !Safe(fs, acked)
  {
    forall spots: seq<Spot> | |spots| == |acked|
      ensures !Placed(fs, acked, spots)
    {
      assert !Holds(fs, spots[i], acked[i]);
    }
  }

  // ----- where a stat that is wrong leads -----

  // Some file other than a temporary one durably holds l.
  ghost predicate OnDisk(fs: Files, l: Bytes) {
    exists n, off: nat :: n in fs && !n.Tmp? && DurableAt(fs[n], off, l)
  }

  lemma SafeIsOnDisk(fs: Files, acked: seq<Bytes>)
    requires Safe(fs, acked)
    ensures forall l :: l in acked ==> OnDisk(fs, l)
  {
    var spots: seq<Spot> :| Placed(fs, acked, spots);
    forall i | 0 <= i < |acked|
      ensures OnDisk(fs, acked[i])
    {
      var s := spots[i];
      assert Holds(fs, s, acked[i]);
      var n := if s.loc == Cur then Part else if Plain(s.loc.key) in fs then Plain(s.loc.key) else Gz(s.loc.key);
      assert n in fs && DurableAt(fs[n], s.off, acked[i]);
    }
  }

  // l is durably in file n, and no other file has it.
  ghost predicate OnlyIn(fs: Files, n: Name, l: Bytes) {
    && n in fs && (exists off: nat :: DurableAt(fs[n], off, l))
    && forall x, off: nat :: x in fs && x != n && !x.Tmp? ==> !LineAt(fs[x].data, off, l)
  }

  // The name is free: no plain file stands there, nor a compressed one the compression would take for its own.
  predicate Free(fs: Files, k: Key, gzip: bool) {
    Plain(k) !in fs && (gzip ==> Gz(k) !in fs)
  }

  // Finishing the open file as k keeps every acknowledged line if and only if the name is free, when the open
  // file, and each file of key k the code may overwrite, holds an acknowledged line no other file has.
  // A wrong stat on the plain name loses the file there. One on the compressed name loses the renamed file,
  // which the compression removes in favour of the twin it sees; and when its own stat is wrong too, the twin,
  // which it overwrites.
  lemma FinishKeepsIffFree(fs: Files, k: Key, gzip: bool, seen: bool, acked: seq<Bytes>, p: Bytes, q: Bytes, r: Bytes)
    requires seen ==> Gz(k) in fs
    requires p in acked && OnlyIn(fs, Part, p)
    requires Plain(k) in fs ==> q in acked && OnlyIn(fs, Plain(k), q)
    requires gzip && Gz(k) in fs ==> r in acked && OnlyIn(fs, Gz(k), r)
    ensures (forall l :: l in acked && OnDisk(fs, l) ==> OnDisk(FinishedAs(fs, k, gzip, seen), l)) <==>
            Free(fs, k, gzip)
  {
    hide OnDisk, FinishedAs;
    var gs := FinishedAs(fs, k, gzip, seen);
    if Free(fs, k, gzip) {
      forall l | l in acked && OnDisk(fs, l)
        ensures OnDisk(gs, l)
      {
        FreeKeepsLine(fs, k, gzip, seen, l);
      }
    } else {
      var at := LostFile(fs, k, seen);
      var lost := if at == Part then p else if at.Plain? then q else r;
      TakenLosesLine(fs, k, gzip, seen, lost);
    }
  }

  // The file whose lines go when the name is taken.
  function LostFile(fs: Files, k: Key, seen: bool): Name {
    if Plain(k) in fs then Plain(k) else if seen then Part else Gz(k)
  }

  lemma FreeKeepsLine(fs: Files, k: Key, gzip: bool, seen: bool, l: Bytes)
    requires Part in fs && (seen ==> Gz(k) in fs) && Free(fs, k, gzip) && OnDisk(fs, l)
    ensures OnDisk(FinishedAs(fs, k, gzip, seen), l)
  {
    var gs := FinishedAs(fs, k, gzip, seen);
    var n, off: nat :| n in fs && !n.Tmp? && DurableAt(fs[n], off, l);
    var at := if n != Part then n else if gzip then Gz(k) else Plain(k);
    assert at in gs && !at.Tmp? && DurableAt(gs[at], off, l);
  }

  lemma TakenLosesLine(fs: Files, k: Key, gzip: bool, seen: bool, l: Bytes)
    requires Part in fs && (seen ==> Gz(k) in fs) && !Free(fs, k, gzip) && OnlyIn(fs, LostFile(fs, k, seen), l)
    ensures OnDisk(fs, l) && !OnDisk(FinishedAs(fs, k, gzip, seen), l)
  {
    var at := LostFile(fs, k, seen);
    var gs := FinishedAs(fs, k, gzip, seen);
    forall n, off: nat | n in gs && !n.Tmp?
      ensures !DurableAt(gs[n], off, l)
    {
      assert n in fs && n != at ==> !LineAt(fs[n].data, off, l);
      assert at != Part ==> !LineAt(fs[Part].data, off, l);
    }
  }

  // Without compression a file finished beside a twin keeps its lines, until a later start with
  // compression on sees that twin and removes the file.
  lemma LaterCompressionLosesLine(fs: Files, k: Key, l: Bytes)
    requires Plain(k) !in fs && Gz(k) in fs && OnlyIn(fs, Part, l)
    ensures OnDisk(FinishedAs(fs, k, false, true), l)
    ensures !OnDisk(CompressedAs(FinishedAs(fs, k, false, true), k, true), l)
  {
    FreeKeepsLine(fs, k, false, true, l);
    TakenLosesLine(fs, k, true, true, l);
  }

  // A stat that wrongly finds no plain file lets the rename overwrite a finished file: its lines are
  // lost unless another file holds them.
  lemma OverwriteLosesLine(fs: Files, k: Key, l: Bytes)
    requires Part in fs && Plain(k) in fs && Gz(k) !in fs && IsLine(l)
    requires DurableAt(fs[Plain(k)], 0, l)
    requires forall n, off: nat :: n in fs && n != Plain(k) ==> !LineAt(fs[n].data, off, l)
    ensures Safe(fs, [l])
    ensures !Safe((fs - {Part})[Plain(k) := fs[Part]], [l])
  {
    assert Placed(fs, [l], [Spot(Fin(k), 0)]);
    var gs := (fs - {Part})[Plain(k) := fs[Part]];
    UnplacedIsLost(gs, [l], 0);
  }

  // A stat that wrongly finds no compressed file overwrites nothing, but the compression then finds that
  // file and removes the plain one: the lines of the open file are lost.
  lemma TwinLosesLine(fs: Files, k: Key, l: Bytes)
    requires Part in fs && Plain(k) !in fs && Gz(k) in fs && IsLine(l) && DurableAt(fs[Part], 0, l)
    requires forall n, off: nat :: n in fs && n != Part ==> !LineAt(fs[n].data, off, l)
    ensures Safe(fs, [l]) && FinishedKept(fs, MovedTo(fs, k)) && OnDisk(MovedTo(fs, k), l)
    ensures !Safe(FinishedAs(fs, k, true, true), [l])
  {
    assert Placed(fs, [l], [Spot(Cur, 0)]);
    assert DurableAt(MovedTo(fs, k)[Plain(k)], 0, l);
    UnplacedIsLost(FinishedAs(fs, k, true, true), [l], 0);
  }

  // When the stat of the compression wrongly finds no compressed file either, it is overwritten: its lines are
  // lost, and those of the open file stay.
  lemma TwinOverwritten(fs: Files, k: Key, p: Bytes, r: Bytes)
    requires Plain(k) !in fs && OnlyIn(fs, Part, p) && IsLine(r) && OnlyIn(fs, Gz(k), r)
    requires DurableAt(fs[Gz(k)], 0, r)
    ensures Safe(fs, [r]) && !Safe(FinishedAs(fs, k, true, false), [r])
    ensures OnDisk(FinishedAs(fs, k, true, false), p)
  {
    var gs := FinishedAs(fs, k, true, false);
    assert Placed(fs, [r], [Spot(Fin(k), 0)]);
    TakenLosesLine(fs, k, true, false, r);
    if Safe(gs, [r]) {
      SafeIsOnDisk(gs, [r]);
    }
    var off: nat :| DurableAt(fs[Part], off, p);
    assert DurableAt(gs[Gz(k)], off, p);
  }
}
