/** What the operations of the archive store do to its tree of files, as relations between the tree
    before and the tree after, and what each relation keeps. */
module ArchiveFiles {
  import opened Wrappers
  import opened ArchiveDisk

  // Sizes are in bytes, times in nanoseconds; zero turns a rotation rule off.
  datatype Options = Options(rotateSize: nat, rotateEvery: nat, gzip: bool)

  // Whether finished files are compressed, and whether a stat that finds nothing is right.
  datatype Mode = Mode(gzip: bool, honest: bool)

  function ShouldRotate(o: Options, size: nat, openedAt: Option<int>, n: nat, now: int): bool {
    && size != 0
    && (|| (o.rotateSize > 0 && size + n > o.rotateSize)
        || (o.rotateEvery > 0 && (openedAt.None? || now - openedAt.value >= o.rotateEvery)))
  }

  function PartData(fs: Files): Bytes {
    if Part in fs then fs[Part].data else []
  }

  predicate IsFinal(n: Name) {
    n.Plain? || n.Gz?
  }

  ghost predicate SameBut(fs: Files, gs: Files, names: set<Name>) {
    forall n :: n !in names ==> (n in fs <==> n in gs) && (n in fs ==> gs[n] == fs[n])
  }

  // ----- cutting, renaming, compressing -----

  function Cut(d: Bytes): Bytes {
    d[..CutEnd(d)]
  }

  // A file repaired to whole lines: cut and fsynced when it ends inside one, untouched otherwise.
  function Repaired(f: File): File {
    if Clean(f.data) then f else Flushed(Shortened(f, CutEnd(f.data)))
  }

  // The open file is as it was or cut to whole lines; nothing else changed.
  ghost predicate CutOrKept(fs: Files, gs: Files) {
    && SameBut(fs, gs, {Part})
    && Part in fs && Part in gs
    && (gs[Part] == fs[Part] || gs[Part].data == Cut(fs[Part].data))
  }

  // The rename of the open file, whatever stood at k before.
  function MovedTo(fs: Files, k: Key): Files
    requires Part in fs
  {
    (fs - {Part})[Plain(k) := fs[Part]]
  }

  // What a compression of plain file k does when no call after its stat fails. A twin that the stat saw is
  // taken as it is; otherwise the plain file is compressed, over a twin that the stat missed.
  function CompressedAs(fs: Files, k: Key, seen: bool): Files
    requires Plain(k) in fs && (seen ==> Gz(k) in fs)
  {
    if seen then fs - {Plain(k)} else (fs - {Plain(k), Tmp(k)})[Gz(k) := Flushed(fs[Plain(k)])]
  }

  // What finishing the open file as k does when no such call fails: rename it, and compress it there when configured.
  function FinishedAs(fs: Files, k: Key, gzip: bool, seen: bool): Files
    requires Part in fs && (seen ==> Gz(k) in fs)
  {
    if gzip then CompressedAs(MovedTo(fs, k), k, seen) else MovedTo(fs, k)
  }

  // Plain file k may have become, or gained, a compressed twin; nothing else changed.
  ghost predicate Compressed(fs: Files, gs: Files, k: Key) {
    && SameBut(fs, gs, {Plain(k), Gz(k), Tmp(k)})
    && Taken(gs, k)
    && (Plain(k) in gs ==> Plain(k) in fs && gs[Plain(k)] == fs[Plain(k)])
    && (Gz(k) in fs ==> Gz(k) in gs)
    && (Gz(k) in gs ==>
          || (Gz(k) in fs && gs[Gz(k)] == fs[Gz(k)])
          || (Plain(k) in fs && gs[Gz(k)] == Flushed(fs[Plain(k)])))
  }

  // The open file went to key k as it was, and was compressed there if so configured.
  ghost predicate Renamed(fs: Files, gs: Files, k: Key, m: Mode) {
    && Part in fs
    && (m.honest ==> !Taken(fs, k))
    && if m.gzip then Compressed(MovedTo(fs, k), gs, k) else gs == MovedTo(fs, k)
  }

  // The open file left: removed if it held no whole line, otherwise repaired and renamed to k.
  ghost predicate RotatedAway(fs: Files, gs: Files, k: Key, m: Mode) {
    && Part in fs
    && if Cut(fs[Part].data) == [] then gs == fs - {Part}
       else Renamed(fs[Part := Repaired(fs[Part])], gs, k, m)
  }

  // Key k holds d, as a plain file, a compressed file, or both.
  ghost predicate Stores(fs: Files, k: Key, d: Bytes) {
    && Taken(fs, k)
    && (Plain(k) in fs ==> fs[Plain(k)].data == d)
    && (Gz(k) in fs ==> fs[Gz(k)].data == d)
  }

  // With truthful probes a rotation leaves the whole lines under a key of their own, and every other file alone.
  lemma RotatedStores(fs: Files, gs: Files, k: Key, m: Mode)
    requires RotatedAway(fs, gs, k, m) && m.honest && Cut(fs[Part].data) != []
    ensures !Taken(fs, k) && Stores(gs, k, Cut(fs[Part].data)) && Part !in gs
    ensures SameBut(fs, gs, {Part, Plain(k), Gz(k), Tmp(k)})
  {
    RepairedIsCut(fs[Part]);
  }

  lemma RepairedIsCut(f: File)
    ensures Repaired(f).data == Cut(f.data)
    ensures GoodFile(f) ==> GoodFile(Repaired(f))
  {
    CleanIsCut(f.data);
  }

  lemma CleanIsCut(d: Bytes)
    ensures Clean(Cut(d)) && (Clean(d) <==> Cut(d) == d)
  {
    assert d[..|d|] == d;
  }

  // Temporary files went, plain files may have been compressed; every key still stores what it stored.
  ghost predicate Swept(fs: Files, gs: Files) {
    && (Part in fs <==> Part in gs) && (Part in fs ==> gs[Part] == fs[Part])
    && (forall k :: Taken(fs, k) <==> Taken(gs, k))
    && (forall k :: Plain(k) in gs ==> Plain(k) in fs && gs[Plain(k)] == fs[Plain(k)])
    && (forall k :: Gz(k) in fs ==> Gz(k) in gs)
    && (forall k :: Gz(k) in gs ==>
          || (Gz(k) in fs && gs[Gz(k)] == fs[Gz(k)])
          || (Plain(k) in fs && gs[Gz(k)] == Flushed(fs[Plain(k)])))
  }

  lemma CompressIsSweep(fs: Files, gs: Files, k: Key)
    requires Compressed(fs, gs, k) && Plain(k) in fs
    ensures Swept(fs, gs)
  {
    forall j: Key
      ensures Taken(fs, j) <==> Taken(gs, j)
    {
    }
  }

  lemma SweptThrough(fs: Files, mid: Files, gs: Files)
    requires Swept(fs, mid) && Swept(mid, gs)
    ensures Swept(fs, gs)
  {
  }

  // A leftover open file was rotated away, giving mid, and mid was swept.
  ghost predicate Recovered(fs: Files, mid: Files, gs: Files, k: Key, m: Mode) {
    (if Part in fs then RotatedAway(fs, mid, k, m) else mid == fs) && Swept(mid, gs)
  }

  // A repair that failed left the tree as it was, its open file cut, or everything but the rest of the sweep.
  ghost predicate RecoverFailed(fs: Files, mid: Files, gs: Files, k: Key, m: Mode) {
    gs == fs || CutOrKept(fs, gs) || Recovered(fs, mid, gs, k, m)
  }

  // ----- appending -----

  // The open file of gs is where the next line goes: empty after a rotation, else as it was.
  ghost predicate Prepared(fs: Files, gs: Files, due: bool, k: Key, m: Mode) {
    && Part in gs
    && PartData(gs) == (if due then [] else PartData(fs))
    && (if due then RotatedAway(fs, gs - {Part}, k, m) else SameBut(fs, gs, {Part}))
  }

  // fs became gs by appending line, to the open file or, after a rotation, to a new one.
  ghost predicate Appended(fs: Files, gs: Files, line: Bytes, due: bool, k: Key, m: Mode) {
    && Part in gs && gs[Part].synced == |gs[Part].data| && !gs[Part].dirty
    && gs[Part].data == (if due then [] else PartData(fs)) + line
    && (if due then RotatedAway(fs, gs - {Part}, k, m) else SameBut(fs, gs, {Part}))
  }

  // What a failed append may leave: part of the line, a file cut for rotation, or a finished rotation.
  ghost predicate AppendFailed(fs: Files, gs: Files, line: Bytes, due: bool, k: Key, m: Mode) {
    || (SameBut(fs, gs, {Part}) &&
        (|| PartData(gs) == PartData(fs)
         || (due && PartData(gs) == Cut(PartData(fs)))
         || (!due && PartData(fs) <= PartData(gs) <= PartData(fs) + line)))
    || (due && RotatedAway(fs, gs - {Part}, k, m) && PartData(gs) <= line)
  }

  lemma AppendThrough(fs: Files, mid: Files, gs: Files, line: Bytes, due: bool, k: Key, m: Mode)
    requires Prepared(fs, mid, due, k, m) && SameBut(mid, gs, {Part}) && Part in gs
    ensures gs[Part] == Flushed(Grown(mid[Part], line)) && line != [] ==> Appended(fs, gs, line, due, k, m)
    ensures PartData(mid) <= PartData(gs) <= PartData(mid) + line ==> AppendFailed(fs, gs, line, due, k, m)
  {
    assert gs - {Part} == mid - {Part};
  }

  // ----- the shape of files -----

  // Non-empty and ending in a newline.
  ghost predicate EndsInNewline(d: Bytes) {
    d != [] && Clean(d)
  }

  ghost predicate Shaped(fs: Files) {
    forall k :: KeyShaped(fs, k)
  }

  ghost predicate KeyShaped(fs: Files, k: Key) {
    && (Plain(k) in fs ==> EndsInNewline(fs[Plain(k)].data))
    && (Gz(k) in fs ==> EndsInNewline(fs[Gz(k)].data))
  }

  // No finished file of key k has anything a crash of the machine could lose.
  predicate Settled(fs: Files, k: Key) {
    (Plain(k) in fs ==> !fs[Plain(k)].dirty) && (Gz(k) in fs ==> !fs[Gz(k)].dirty)
  }

  ghost predicate CompressedSettled(fs: Files) {
    forall k :: Gz(k) in fs ==> !fs[Gz(k)].dirty
  }

  // At most limit bytes, or a single line however long; no limit at zero.
  predicate SizeOk(d: Bytes, limit: nat) {
    limit == 0 || |d| <= limit || forall i :: 0 <= i < |d| - 1 ==> d[i] != NEWLINE
  }

  ghost predicate Bounded(fs: Files, limit: nat) {
    forall n :: n in fs && !n.Tmp? ==> SizeOk(fs[n].data, limit)
  }

  // Whatever a finished key stored it still stores.
  ghost predicate KeepsContent(fs: Files, gs: Files) {
    forall k, d :: Stores(fs, k, d) ==> Stores(gs, k, d)
  }

  lemma PrefixSizeOk(d: Bytes, e: Bytes, limit: nat)
    requires SizeOk(d, limit) && e <= d
    ensures SizeOk(e, limit)
  {
    assert forall i :: 0 <= i < |e| ==> e[i] == d[i];
  }

  // ----- what one system call keeps -----

  // No acknowledged line is lost.
  ghost predicate SafeStep(fs: Files, gs: Files) {
    forall acked: seq<Bytes> :: Safe(fs, acked) ==> Safe(gs, acked)
  }

  // Key by key finished files stay in shape, a compressed file is always settled, and with truthful probes
  // no finished content changes nor becomes unsettled.
  ghost predicate KeysStep(fs: Files, gs: Files, honest: bool) {
    && (forall k :: KeyShaped(fs, k) ==> KeyShaped(gs, k))
    && (CompressedSettled(fs) ==> CompressedSettled(gs))
    && (honest ==> KeepsContent(fs, gs) && forall k :: Taken(fs, k) && Settled(fs, k) ==> Settled(gs, k))
  }

  // And no file outgrows the limit.
  ghost predicate TidyStep(fs: Files, gs: Files, limit: nat, honest: bool) {
    KeysStep(fs, gs, honest) && (Bounded(fs, limit) ==> Bounded(gs, limit))
  }

  // Whether d may grow by n bytes.
  predicate Fits(d: Bytes, n: nat, limit: nat) {
    limit == 0 || d == [] || |d| + n <= limit
  }

  lemma PartSafe(fs: Files, gs: Files)
    requires Part in gs && SameBut(fs, gs, {Part})
    requires Part in fs ==> LinesKept(fs[Part], gs[Part])
    ensures SafeStep(fs, gs)
  {
    assert gs == fs[Part := gs[Part]];
    forall acked: seq<Bytes> | Safe(fs, acked)
      ensures Safe(gs, acked)
    {
      SafeIfPartChanged(fs, gs[Part], acked);
    }
  }

  // A change of the open file alone touches no finished one.
  lemma PartTidy(fs: Files, gs: Files, limit: nat, honest: bool)
    requires SameBut(fs, gs, {Part})
    requires Part in gs && Bounded(fs, limit) ==> SizeOk(gs[Part].data, limit)
    ensures TidyStep(fs, gs, limit, honest)
  {
  }

  // The open file shrinks to a prefix, its durable lines kept.
  lemma ShrinkHarmless(fs: Files, gs: Files, limit: nat, honest: bool)
    requires Part in fs && Part in gs && SameBut(fs, gs, {Part})
    requires LinesKept(fs[Part], gs[Part]) && gs[Part].data <= fs[Part].data
    ensures SafeStep(fs, gs) && TidyStep(fs, gs, limit, honest)
  {
    PartSafe(fs, gs);
    if Bounded(fs, limit) {
      PrefixSizeOk(fs[Part].data, gs[Part].data, limit);
    }
    PartTidy(fs, gs, limit, honest);
  }

  // The open file grows by part of a line it has room for.
  lemma GrowHarmless(fs: Files, gs: Files, line: Bytes, n: nat, limit: nat, honest: bool)
    requires Part in fs && GoodFile(fs[Part]) && IsLine(line) && n <= |line|
    requires gs == fs[Part := Grown(fs[Part], line[..n])] && Fits(fs[Part].data, |line|, limit)
    ensures SafeStep(fs, gs) && TidyStep(fs, gs, limit, honest)
  {
    GrowKeepsLines(fs[Part], line[..n]);
    PartSafe(fs, gs);
    PartTidy(fs, gs, limit, honest);
  }

  lemma FlushHarmless(fs: Files, gs: Files, limit: nat, honest: bool)
    requires Part in fs && GoodFile(fs[Part]) && gs == fs[Part := Flushed(fs[Part])]
    ensures SafeStep(fs, gs) && TidyStep(fs, gs, limit, honest)
  {
    FlushKeepsLines(fs[Part]);
    ShrinkHarmless(fs, gs, limit, honest);
  }

  lemma CreateHarmless(fs: Files, limit: nat, honest: bool)
    requires Part !in fs
    ensures SafeStep(fs, fs[Part := File([], 0, false)]) && TidyStep(fs, fs[Part := File([], 0, false)], limit, honest)
  {
    PartSafe(fs, fs[Part := File([], 0, false)]);
    PartTidy(fs, fs[Part := File([], 0, false)], limit, honest);
  }

  // A file without a newline holds no line.
  lemma EmptyHarmless(fs: Files, limit: nat, honest: bool)
    requires Part in fs && PartData(fs) == []
    ensures SafeStep(fs, fs - {Part}) && TidyStep(fs, fs - {Part}, limit, honest)
  {
    CarriedIsSafe(fs, fs - {Part});
    PartTidy(fs, fs - {Part}, limit, honest);
  }

  lemma CarriedIsSafe(fs: Files, gs: Files)
    requires forall a: Loc :: Carries(fs, a, gs, a)
    ensures SafeStep(fs, gs)
  {
    forall acked: seq<Bytes> | Safe(fs, acked)
      ensures Safe(gs, acked)
    {
      SafeIfCarried(fs, gs, acked);
    }
  }

  // The rename to a free key keeps every acknowledged line.
  lemma RenameSafe(fs: Files, k: Key)
    requires Part in fs && !Taken(fs, k)
    ensures SafeStep(fs, MovedTo(fs, k))
  {
    var gs := MovedTo(fs, k);
    forall acked: seq<Bytes> | Safe(fs, acked)
      ensures Safe(gs, acked)
    {
      forall a: Key | a != k
        ensures Carries(fs, Fin(a), gs, Fin(a))
      {
      }
      SafeIfMoved(fs, gs, acked, k);
    }
  }

  // It finishes the file in shape, and at a free key changes no other finished content.
  lemma RenameTidy(fs: Files, k: Key, limit: nat, honest: bool)
    requires Part in fs && EndsInNewline(PartData(fs)) && (honest ==> !Taken(fs, k))
    ensures TidyStep(fs, MovedTo(fs, k), limit, honest)
  {
  }

  lemma TmpHarmless(fs: Files, gs: Files, k: Key, limit: nat, honest: bool)
    requires SameBut(fs, gs, {Tmp(k)})
    ensures SafeStep(fs, gs) && TidyStep(fs, gs, limit, honest)
  {
    forall a: Loc
      ensures Carries(fs, a, gs, a)
    {
    }
    CarriedIsSafe(fs, gs);
  }

  // A complete compressed twin holds every line its plain file holds, and the same bytes.
  lemma TwinHarmless(fs: Files, gs: Files, k: Key, limit: nat, honest: bool)
    requires GoodFiles(fs) && Plain(k) in fs && Gz(k) in gs && gs[Gz(k)] == Flushed(fs[Plain(k)])
    requires SameBut(fs, gs, {Tmp(k), Gz(k)})
    ensures SafeStep(fs, gs) && TidyStep(fs, gs, limit, honest)
  {
    FlushKeepsLines(fs[Plain(k)]);
    forall a: Loc
      ensures Carries(fs, a, gs, a)
    {
    }
    CarriedIsSafe(fs, gs);
  }

  // The plain file may go once its twin is there.
  lemma PlainSuperseded(fs: Files, k: Key, limit: nat, honest: bool)
    requires Gz(k) in fs
    ensures SafeStep(fs, fs - {Plain(k)}) && TidyStep(fs, fs - {Plain(k)}, limit, honest)
  {
    forall a: Loc
      ensures Carries(fs, a, fs - {Plain(k)}, a)
    {
    }
    CarriedIsSafe(fs, fs - {Plain(k)});
  }

  // ----- the record of a run -----

  // Step i of a run was a crash, or a call that keeps finished files.
  ghost predicate StepAt(h: seq<Snapshot>, i: nat, honest: bool)
    requires 0 < i < |h|
  {
    if h[i].crashed then CrashOfFiles(h[i - 1].files, h[i].files) else KeysStep(h[i - 1].files, h[i].files, honest)
  }

  ghost predicate Lawful(h: seq<Snapshot>, honest: bool) {
    forall i: nat :: 0 < i < |h| ==> StepAt(h, i, honest)
  }

  ghost predicate FitsAt(h: seq<Snapshot>, i: nat, limit: nat)
    requires 0 < i < |h|
  {
    !h[i].crashed && Bounded(h[i - 1].files, limit) ==> Bounded(h[i].files, limit)
  }

  // No step of the run but a crash outgrew the limit.
  ghost predicate Fitting(h: seq<Snapshot>, limit: nat) {
    forall i: nat :: 0 < i < |h| ==> FitsAt(h, i, limit)
  }

  lemma RunGrows(h: seq<Snapshot>, s: Snapshot, limit: nat, honest: bool)
    requires |h| > 0
    requires if s.crashed then CrashOfFiles(h[|h| - 1].files, s.files)
             else TidyStep(h[|h| - 1].files, s.files, limit, honest)
    ensures Lawful(h, honest) ==> Lawful(h + [s], honest)
    ensures Fitting(h, limit) ==> Fitting(h + [s], limit)
  {
    hide KeysStep, Bounded, CrashOfFiles;
    forall i: nat | 0 < i < |h| + 1
      ensures Lawful(h, honest) ==> StepAt(h + [s], i, honest)
      ensures Fitting(h, limit) ==> FitsAt(h + [s], i, limit)
    {
      if i < |h| {
        assert Lawful(h, honest) ==> StepAt(h, i, honest);
        assert Fitting(h, limit) ==> FitsAt(h, i, limit);
      }
    }
  }

  lemma RunPrefix(h: seq<Snapshot>, n: nat, limit: nat, honest: bool)
    requires n <= |h|
    ensures Lawful(h, honest) ==> Lawful(h[..n], honest)
    ensures Fitting(h, limit) ==> Fitting(h[..n], limit)
  {
    hide KeysStep, Bounded, CrashOfFiles;
    forall i: nat | 0 < i < n
      ensures Lawful(h, honest) ==> StepAt(h[..n], i, honest)
      ensures Fitting(h, limit) ==> FitsAt(h[..n], i, limit)
    {
      assert Lawful(h, honest) ==> StepAt(h, i, honest);
      assert Fitting(h, limit) ==> FitsAt(h, i, limit);
    }
  }

  // A crash left the bytes of every finished file of key k alone.
  ghost predicate Untorn(fs: Files, gs: Files, k: Key) {
    && (Plain(k) in fs ==> Plain(k) in gs && gs[Plain(k)].data == fs[Plain(k)].data)
    && (Gz(k) in fs ==> Gz(k) in gs && gs[Gz(k)].data == fs[Gz(k)].data)
  }

  ghost predicate UntornBetween(h: seq<Snapshot>, i: nat, j: nat, k: Key)
    requires i <= j < |h|
  {
    forall m: nat :: i < m <= j && h[m].crashed ==> Untorn(h[m - 1].files, h[m].files, k)
  }

  // A crash only lost bytes, of files other than temporary ones.
  ghost predicate Lossy(fs: Files, gs: Files) {
    forall n :: n in gs && !n.Tmp? ==> n in fs && gs[n].data <= fs[n].data
  }

  ghost predicate LossyBetween(h: seq<Snapshot>, i: nat, j: nat)
    requires i <= j < |h|
  {
    forall m: nat :: i < m <= j && h[m].crashed ==> Lossy(h[m - 1].files, h[m].files)
  }

  // What tree i of a run guarantees of tree j, key by key: shape and content until a crash tears that very key,
  // and content with nothing unsynced for good, through every crash.
  ghost predicate Upheld(h: seq<Snapshot>, i: nat, j: nat, honest: bool)
    requires i <= j < |h|
  {
    var fs, gs := h[i].files, h[j].files;
    && (CompressedSettled(fs) ==> CompressedSettled(gs))
    && (forall k :: KeyShaped(fs, k) && UntornBetween(h, i, j, k) ==> KeyShaped(gs, k))
    && (honest ==> forall k, d :: Stores(fs, k, d) && UntornBetween(h, i, j, k) ==> Stores(gs, k, d))
    && (honest ==> forall k, d :: Stores(fs, k, d) && Settled(fs, k) ==> Stores(gs, k, d) && Settled(gs, k))
  }

  lemma {:induction false} LawfulUpholds(h: seq<Snapshot>, i: nat, j: nat, honest: bool)
    requires i <= j < |h| && Lawful(h, honest)
    ensures Upheld(h, i, j, honest)
    decreases j - i
  {
    if i < j {
      LawfulUpholds(h, i, j - 1, honest);
      assert StepAt(h, j, honest);
      forall k | UntornBetween(h, i, j, k)
        ensures UntornBetween(h, i, j - 1, k) && (h[j].crashed ==> Untorn(h[j - 1].files, h[j].files, k))
      {
      }
    }
  }

  // While crashes only lose bytes no file outgrows the limit.
  lemma {:induction false} FittingStaysBounded(h: seq<Snapshot>, i: nat, j: nat, limit: nat)
    requires i <= j < |h| && Fitting(h, limit) && LossyBetween(h, i, j) && Bounded(h[i].files, limit)
    ensures Bounded(h[j].files, limit)
    decreases j - i
  {
    if i < j {
      FittingStaysBounded(h, i, j - 1, limit);
      assert FitsAt(h, j, limit);
      if h[j].crashed {
        assert Lossy(h[j - 1].files, h[j].files);
        forall n | n in h[j].files && !n.Tmp?
          ensures SizeOk(h[j].files[n].data, limit)
        {
          PrefixSizeOk(h[j - 1].files[n].data, h[j].files[n].data, limit);
        }
      }
    }
  }
}
