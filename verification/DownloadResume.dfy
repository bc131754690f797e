/**
 What repeated downloads of one manifest keep: finished files are skipped
 from then on, progress is a prefix sum, and the secondary caches stay
 untouched exactly as long as no linked file has to be fetched again.
*/
module DownloadResume {
  import opened Wrappers
  import opened Text
  import opened ModelDownload

  // ----- storage no step touches -----------------------------------------------------------

  ghost predicate SameStorage(d: Disk, m: Name, n: Name) {
    m in d.names && n in d.names && d.names[m] == d.names[n]
  }

  /** A name that is neither the file's nor its temporary file's, on storage of its own. */
  ghost predicate Bystander(d: Disk, path: string, n: Name) {
    && n in d.names && n != Primary(path) && n != Primary(PartName(path))
    && !SameStorage(d, n, Primary(path)) && !SameStorage(d, n, Primary(PartName(path)))
  }

  /** The name still leads to the same storage of the same length. */
  ghost predicate Untouched(d: Disk, e: Disk, n: Name) {
    n in d.names && n in e.names && d.names[n] == e.names[n] && Length(d, n) == Length(e, n)
  }

  lemma TryLeaves(d: Disk, path: string, try: Try, n: Name)
    requires WellFormed(d) && Bystander(d, path, n)
    ensures WellFormed(TryOnce(d, path, try)) && Bystander(TryOnce(d, path, try), path, n)
    ensures Untouched(d, TryOnce(d, path, try), n)
  {
    var part := Primary(PartName(path));
    assert part !in d.names ==> d.names[n] != d.next;
  }

  lemma {:induction false} TriesLeave(d: Disk, path: string, tries: nat -> Try, attempt: nat, n: Name)
    requires WellFormed(d) && Bystander(d, path, n) && 1 <= attempt <= 3
    ensures Untouched(d, Tries(d, path, tries, attempt).disk, n)
    decreases 3 - attempt
  {
    TryLeaves(d, path, tries(attempt), n);
    if attempt < 3 {
      TriesLeave(TryOnce(d, path, tries(attempt)), path, tries, attempt + 1, n);
    }
  }

  lemma ImportLeaves(d: Disk, from: Name, path: string, fate: Fate, n: Name)
    requires WellFormed(d) && from in d.names && Bystander(d, path, n)
    ensures
      var import_ := Materialise(d, from, Primary(path), fate);
      && WellFormed(import_.disk) && Untouched(d, import_.disk, n)
      && (!import_.done ==> Bystander(import_.disk, path, n))
  {
  }

  lemma StepLeaves(d: Disk, file: File, env: Env, fate: Fate, n: Name)
    requires WellFormed(d) && Bystander(d, file.path, n)
    ensures Untouched(d, FileStep(d, file, env, fate).disk, n)
  {
    var found := Find(d, env, 0, file.path);
    TriesLeave(d, file.path, fate.tries, 1, n);
    if found.Some? {
      ImportLeaves(d, found.value, file.path, fate, n);
      var import_ := Materialise(d, found.value, Primary(file.path), fate);
      if !import_.done {
        TriesLeave(import_.disk, file.path, fate.tries, 1, n);
      }
    }
  }

  // ----- which names may share storage --------------------------------------------------------

  /** Paths are distinct, and none is another's temporary name. */
  predicate NoClash(manifest: seq<File>) {
    forall i, j :: 0 <= i < |manifest| && 0 <= j < |manifest| && i != j ==>
      manifest[i].path != manifest[j].path && manifest[i].path != PartName(manifest[j].path)
  }

  /** `path` is a temporary name only. */
  predicate Temporary(manifest: seq<File>, path: string) {
    exists i :: 0 <= i < |manifest| && PartName(manifest[i].path) == path != manifest[i].path
  }

  /** Names share storage only under one relative path, and temporary names share it with nothing. */
  ghost predicate Tidy(d: Disk, manifest: seq<File>) {
    && WellFormed(d)
    && (forall m, n :: SameStorage(d, m, n) ==> m.path == n.path)
    && (forall m, n :: SameStorage(d, m, n) && m.Primary? && Temporary(manifest, m.path) ==> m == n)
  }

  lemma WriteKeepsTidy(d: Disk, manifest: seq<File>, n: Name, length: nat)
    requires Tidy(d, manifest)
    ensures Tidy(Written(d, n, length), manifest)
  {
    var e := Written(d, n, length);
    assert forall a, b :: SameStorage(e, a, b) ==> SameStorage(d, a, b) || a == b;
  }

  lemma RenameKeepsTidy(d: Disk, manifest: seq<File>, part: Name, to: Name)
    requires Tidy(d, manifest) && part in d.names && part != to
    requires part.Primary? && Temporary(manifest, part.path)
    ensures Tidy(Renamed(d, part, to), manifest)
  {
    var e := Renamed(d, part, to);
    assert forall b :: SameStorage(e, to, b) && b != to ==> SameStorage(d, part, b);
    assert forall a, b :: SameStorage(e, a, b) && a != to && b != to ==> SameStorage(d, a, b);
    assert forall a, b :: SameStorage(e, a, b) ==> SameStorage(e, b, a);
  }

  lemma TryKeepsTidy(d: Disk, manifest: seq<File>, i: nat, try: Try)
    requires Tidy(d, manifest) && i < |manifest|
    ensures
      var e := TryOnce(d, manifest[i].path, try);
      Tidy(e, manifest)
  {
    var path, part := Primary(manifest[i].path), Primary(PartName(manifest[i].path));
    match try
    case Refused =>
    case Broken(n) => WriteKeepsTidy(d, manifest, part, n);
    case Stopped(n) => WriteKeepsTidy(d, manifest, part, n);
    case Received(n) =>
      WriteKeepsTidy(d, manifest, part, n);
      if part != path {
        RenameKeepsTidy(Written(d, part, n), manifest, part, path);
      } else {
        assert Renamed(Written(d, part, n), part, path) == Written(d, part, n);
      }
  }

  lemma {:induction false} TriesKeepTidy(d: Disk, manifest: seq<File>, i: nat, tries: nat -> Try, attempt: nat)
    requires Tidy(d, manifest) && NoClash(manifest) && i < |manifest| && 1 <= attempt <= 3
    ensures
      var e := Tries(d, manifest[i].path, tries, attempt).disk;
      Tidy(e, manifest)
    decreases 3 - attempt
  {
    TryKeepsTidy(d, manifest, i, tries(attempt));
    if attempt < 3 {
      TriesKeepTidy(TryOnce(d, manifest[i].path, tries(attempt)), manifest, i, tries, attempt + 1);
    }
  }

  lemma FileIsNotTemporary(manifest: seq<File>, i: nat)
    requires NoClash(manifest) && i < |manifest|
    ensures !Temporary(manifest, manifest[i].path)
  {
  }

  lemma ImportKeepsTidy(d: Disk, manifest: seq<File>, i: nat, from: Name, fate: Fate)
    requires Tidy(d, manifest) && NoClash(manifest) && i < |manifest|
    requires from in d.names && from.Secondary? && from.path == manifest[i].path
    ensures
      var e := Materialise(d, from, Primary(manifest[i].path), fate).disk;
      Tidy(e, manifest)
  {
    var to := Primary(manifest[i].path);
    FileIsNotTemporary(manifest, i);
    if fate.link && to !in d.names {
      var e := Linked(d, from, to);
      assert forall b :: SameStorage(e, to, b) && b != to ==> SameStorage(d, from, b) && SameStorage(d, b, from);
      assert forall a, b :: SameStorage(e, a, b) && a != to && b != to ==> SameStorage(d, a, b);
      assert forall a, b :: SameStorage(e, a, b) ==> SameStorage(e, b, a);
    } else {
      match fate.copy
      case NotCopied =>
      case HalfCopied(n) => WriteKeepsTidy(d, manifest, to, n);
      case StoppedCopy(n) => WriteKeepsTidy(d, manifest, to, n);
      case WholeCopied => WriteKeepsTidy(d, manifest, to, CopiedLength(d, from, to));
    }
  }

  lemma StepKeepsTidy(d: Disk, manifest: seq<File>, i: nat, env: Env, fate: Fate)
    requires Tidy(d, manifest) && NoClash(manifest) && i < |manifest|
    ensures
      var e := FileStep(d, manifest[i], env, fate).disk;
      Tidy(e, manifest)
  {
    var path := manifest[i].path;
    var found := Find(d, env, 0, path);
    TriesKeepTidy(d, manifest, i, fate.tries, 1);
    if found.Some? {
      ImportKeepsTidy(d, manifest, i, found.value, fate);
      TriesKeepTidy(Materialise(d, found.value, Primary(path), fate).disk, manifest, i, fate.tries, 1);
    }
  }

  // ----- finished files stay finished -----------------------------------------------------------

  /** A tidy disk on which that file is finished. */
  ghost predicate Finished(d: Disk, manifest: seq<File>, j: nat) {
    Tidy(d, manifest) && j < |manifest| && Satisfied(d, manifest[j])
  }

  lemma StepKeepsFinished(d: Disk, manifest: seq<File>, i: nat, env: Env, j: nat)
    requires NoClash(manifest) && i < |manifest| && Finished(d, manifest, j)
    ensures Finished(Stepping(manifest, env)(d, i).disk, manifest, j)
  {
    StepKeepsTidy(d, manifest, i, env, env.fates(i));
    if i != j {
      StepLeaves(d, manifest[i], env, env.fates(i), Primary(manifest[j].path));
    }
  }

  /** The disk when file `i` is taken up, or when the run ended before that. */
  function DiskAt(d: Disk, manifest: seq<File>, env: Env, i: nat): Disk {
    RunOf(Stepping(manifest, env), d, i, 0, 0).disk
  }

  lemma RunKeepsFinished(d: Disk, manifest: seq<File>, env: Env, j: nat, i: nat)
    requires NoClash(manifest) && i <= |manifest| && Finished(d, manifest, j)
    ensures Finished(DiskAt(d, manifest, env, i), manifest, j)
  {
    FinishedFromThere(d, manifest, env, j, 0, i);
  }

  lemma FinishedFromThere(d: Disk, manifest: seq<File>, env: Env, j: nat, i: nat, n: nat)
    requires NoClash(manifest) && i <= n <= |manifest| && Finished(DiskAt(d, manifest, env, i), manifest, j)
    ensures Finished(DiskAt(d, manifest, env, n), manifest, j)
  {
    ghost var P := (e: Disk) => Finished(e, manifest, j);
    forall e: Disk, a: nat | a < n && P(e) ensures P(Stepping(manifest, env)(e, a).disk) {
      StepKeepsFinished(e, manifest, a, env, j);
    }
    RunLonger(Stepping(manifest, env), P, d, i, n, 0, 0);
  }

  /** Any number of downloads of one manifest, each ending as it may. */
  function Downloads(d: Disk, manifest: seq<File>, envs: seq<Env>): Disk {
    if envs == [] then d else Run(Downloads(d, manifest, envs[..|envs| - 1]), manifest, envs[|envs| - 1]).disk
  }

  lemma {:induction false} DownloadsKeepFinished(d: Disk, manifest: seq<File>, envs: seq<Env>, j: nat)
    requires NoClash(manifest) && Finished(d, manifest, j)
    ensures Finished(Downloads(d, manifest, envs), manifest, j)
    decreases |envs|
  {
    if envs != [] {
      DownloadsKeepFinished(d, manifest, envs[..|envs| - 1], j);
      RunKeepsFinished(Downloads(d, manifest, envs[..|envs| - 1]), manifest, envs[|envs| - 1], j, |manifest|);
    }
  }

  /** Whatever happens before, the run goes past file `j` without changing the disk or sending anything of its own. */
  ghost predicate Skips(d: Disk, manifest: seq<File>, j: nat, env: Env)
    requires j < |manifest|
  {
    var here := DiskAt(d, manifest, env, j);
    env.fates(j).directory ==>
      Stepping(manifest, env)(here, j) == Step(here, Ready(SizeOrZero(manifest[j])), [])
  }

  /**
   A file finished when a run takes up a later one, or ends, is finished for good: after that run,
   however it ends, and any further runs, the next one leaves the disk alone when it comes to it.
  */
  lemma FinishedFilesAreNeverFetchedAgain(
      d: Disk, manifest: seq<File>, envs: seq<Env>, env: Env, j: nat, i: nat, next: Env)
    requires NoClash(manifest) && i <= |manifest|
    requires Finished(DiskAt(d, manifest, env, i), manifest, j)
    ensures Skips(Downloads(Run(d, manifest, env).disk, manifest, envs), manifest, j, next)
  {
    FinishedFromThere(d, manifest, env, j, i, |manifest|);
    var after := Run(d, manifest, env).disk;
    DownloadsKeepFinished(after, manifest, envs, j);
    RunKeepsFinished(Downloads(after, manifest, envs), manifest, next, j, j);
  }

  /** Tidiness is no premise a run could break. */
  lemma RunKeepsTidy(d: Disk, manifest: seq<File>, env: Env)
    requires NoClash(manifest) && Tidy(d, manifest)
    ensures Tidy(Run(d, manifest, env).disk, manifest)
  {
    ghost var P := (e: Disk) => Tidy(e, manifest);
    forall e: Disk, a: nat | a < |manifest| && P(e) ensures P(Stepping(manifest, env)(e, a).disk) {
      StepKeepsTidy(e, manifest, a, env, env.fates(a));
    }
    RunLonger(Stepping(manifest, env), P, d, 0, |manifest|, 0, 0);
  }

  // ----- what a handled file leaves ---------------------------------------------------------------

  lemma {:induction false} TriesStore(d: Disk, path: string, tries: nat -> Try, attempt: nat)
    requires 1 <= attempt <= 3
    ensures
      var step := Tries(d, path, tries, attempt);
      step.end.Ready? ==> Primary(path) in step.disk.names && Length(step.disk, Primary(path)) == step.end.credit
    decreases 3 - attempt
  {
    if attempt < 3 {
      TriesStore(TryOnce(d, path, tries(attempt)), path, tries, attempt + 1);
    }
  }

  predicate Imports(events: seq<Event>) {
    exists i :: 0 <= i < |events| && events[i].Importing?
  }

  lemma {:induction false} TriesImportNothing(d: Disk, path: string, tries: nat -> Try, attempt: nat)
    requires 1 <= attempt <= 3
    ensures !Imports(Tries(d, path, tries, attempt).events)
    decreases 3 - attempt
  {
    if attempt < 3 {
      TriesImportNothing(TryOnce(d, path, tries(attempt)), path, tries, attempt + 1);
    }
  }

  /** The credit of a handled file is what is stored of it, unless it was imported or its size is not announced. */
  lemma CreditIsStored(d: Disk, file: File, env: Env, fate: Fate)
    requires FileStep(d, file, env, fate).end.Ready?
    ensures
      var step := FileStep(d, file, env, fate);
      && Primary(file.path) in step.disk.names
      && (Length(step.disk, Primary(file.path)) == step.end.credit
          || Imports(step.events) || (file.size.None? && step.disk == d))
      && (Imports(step.events) ==> step.end.credit == SizeOrZero(file))
  {
    StepKeepsName(d, file, env, fate, Primary(file.path));
    var found := Find(d, env, 0, file.path);
    if fate.directory && !Satisfied(d, file) {
      if found.None? {
        TriesStore(d, file.path, fate.tries, 1);
        TriesImportNothing(d, file.path, fate.tries, 1);
      } else {
        var import_ := Materialise(d, found.value, Primary(file.path), fate);
        if import_.done {
          assert FileStep(d, file, env, fate).events[0].Importing?;
        } else {
          TriesStore(import_.disk, file.path, fate.tries, 1);
          TriesImportNothing(import_.disk, file.path, fate.tries, 1);
        }
      }
    }
  }

  // ----- progress -----------------------------------------------------------------------------------

  /** The credits of the files a run gets past. */
  function Credits(step: Stepper, d: Disk, n: nat, k: nat): seq<nat>
    requires k <= n
    decreases n - k
  {
    if k < n && step(d, k).end.Ready? then
      [step(d, k).end.credit] + Credits(step, step(d, k).disk, n, k + 1)
    else []
  }

  function Boundaries(events: seq<Event>): seq<Event> {
    if events == [] then []
    else (if events[0].Progress? then [events[0]] else []) + Boundaries(events[1..])
  }

  function Sum(credits: seq<nat>): nat {
    if credits == [] then 0 else credits[0] + Sum(credits[1..])
  }

  lemma {:induction false} BoundariesAppend(a: seq<Event>, b: seq<Event>)
    ensures Boundaries(a + b) == Boundaries(a) + Boundaries(b)
  {
    if a == [] {
      assert a + b == b;
    } else {
      assert (a + b)[1..] == a[1..] + b;
      BoundariesAppend(a[1..], b);
    }
  }

  lemma {:induction false} TriesReportNoBoundary(d: Disk, path: string, tries: nat -> Try, attempt: nat)
    requires 1 <= attempt <= 3
    ensures Boundaries(Tries(d, path, tries, attempt).events) == []
    decreases 3 - attempt
  {
    if attempt < 3 {
      var rest := Tries(TryOnce(d, path, tries(attempt)), path, tries, attempt + 1).events;
      TriesReportNoBoundary(TryOnce(d, path, tries(attempt)), path, tries, attempt + 1);
      assert ([Retrying(path, attempt)] + rest)[1..] == rest;
    }
  }

  lemma StepReportsNoBoundary(d: Disk, file: File, env: Env, fate: Fate)
    ensures Boundaries(FileStep(d, file, env, fate).events) == []
  {
    var found := Find(d, env, 0, file.path);
    TriesReportNoBoundary(d, file.path, fate.tries, 1);
    if found.Some? {
      TriesReportNoBoundary(Materialise(d, found.value, Primary(file.path), fate).disk, file.path, fate.tries, 1);
      assert [Importing(file.path, found.value, SizeOrZero(file))][1..] == [];
    }
  }

  /** What is announced once `done` files after the first `k` are handled. */
  function Announced(overall: nat, k: nat, credits: seq<nat>, done: nat): Event
    requires done <= |credits|
  {
    Progress(SaturatingAdd(overall, Sum(credits[..done])), k + done)
  }

  function Announcements(overall: nat, k: nat, credits: seq<nat>): seq<Event> {
    seq(|credits|, i requires 0 <= i < |credits| => Announced(overall, k, credits, i + 1))
  }

  lemma AnnouncedOneLater(overall: nat, k: nat, credits: seq<nat>, done: nat)
    requires 0 < done <= |credits|
    ensures Announced(overall, k, credits, done)
      == Announced(SaturatingAdd(overall, credits[0]), k + 1, credits[1..], done - 1)
  {
    assert credits[..done][1..] == credits[1..][..done - 1];
  }

  lemma {:induction false} BoundariesAreAnnouncements(step: Stepper, d: Disk, n: nat, k: nat, overall: nat)
    requires k <= n && overall <= U64_MAX
    requires forall e: Disk, i: nat | i < n :: Boundaries(step(e, i).events) == []
    ensures Boundaries(RunOf(step, d, n, k, overall).events) == Announcements(overall, k, Credits(step, d, n, k))
    ensures |Credits(step, d, n, k)| == Handled(RunOf(step, d, n, k, overall).ending, n) - k
    decreases n - k
  {
    if k == n {
      assert [Complete][1..] == [];
    } else {
      var here := step(d, k);
      if here.end.Ready? {
        var sum := SaturatingAdd(overall, here.end.credit);
        BoundariesAreAnnouncements(step, here.disk, n, k + 1, sum);
        ReadyBoundaries(here.events, Progress(sum, k + 1), RunOf(step, here.disk, n, k + 1, sum).events);
        AnnouncementsUnfold(overall, k, Credits(step, d, n, k));
      }
    }
  }

  /** Progress at file boundaries is the sum of the credits so far, one announcement a file in manifest order. */
  lemma ProgressIsPrefixSum(d: Disk, manifest: seq<File>, env: Env)
    ensures
      var run, credits := Run(d, manifest, env), Credits(Stepping(manifest, env), d, |manifest|, 0);
      && |credits| == Handled(run.ending, |manifest|)
      && Boundaries(run.events) == Announcements(0, 0, credits)
  {
    forall e: Disk, i: nat | i < |manifest| ensures Boundaries(Stepping(manifest, env)(e, i).events) == [] {
      StepReportsNoBoundary(e, manifest[i], env, env.fates(i));
    }
    BoundariesAreAnnouncements(Stepping(manifest, env), d, |manifest|, 0, 0);
  }

  lemma ReadyBoundaries(before: seq<Event>, here: Event, later: seq<Event>)
    requires Boundaries(before) == [] && here.Progress?
    ensures Boundaries((before + [here]) + later) == [here] + Boundaries(later)
  {
    BoundariesAppend(before + [here], later);
    BoundariesAppend(before, [here]);
    assert [here][1..] == [];
  }

  lemma AnnouncementsUnfold(overall: nat, k: nat, credits: seq<nat>)
    requires credits != [] && overall <= U64_MAX
    ensures
      var sum := SaturatingAdd(overall, credits[0]);
      Announcements(overall, k, credits) == [Progress(sum, k + 1)] + Announcements(sum, k + 1, credits[1..])
  {
    var sum := SaturatingAdd(overall, credits[0]);
    var whole, rest := Announcements(overall, k, credits), Announcements(sum, k + 1, credits[1..]);
    forall i | 0 <= i < |whole| ensures whole[i] == ([Progress(sum, k + 1)] + rest)[i] {
      AnnouncedOneLater(overall, k, credits, i + 1);
      assert credits[1..][..0] == [];
    }
  }

  lemma {:induction false} ProgressNeverFalls(overall: nat, k: nat, credits: seq<nat>, i: nat, j: nat)
    requires i <= j <= |credits| && overall <= U64_MAX
    ensures Announced(overall, k, credits, i).bytes <= Announced(overall, k, credits, j).bytes <= U64_MAX
    decreases j
  {
    if i > 0 {
      AnnouncedOneLater(overall, k, credits, i);
      AnnouncedOneLater(overall, k, credits, j);
      ProgressNeverFalls(SaturatingAdd(overall, credits[0]), k + 1, credits[1..], i - 1, j - 1);
    }
  }

  // ----- secondary caches -------------------------------------------------------------------------------

  ghost predicate SecondariesKept(d: Disk, e: Disk) {
    forall n <- d.names | n.Secondary? :: Untouched(d, e, n)
  }

  /** The file has to be fetched although its name shares storage with a secondary cache. */
  ghost predicate Stale(d: Disk, file: File) {
    !Satisfied(d, file) && exists n: Name :: n.Secondary? && SameStorage(d, n, Primary(file.path))
  }

  /** No step gives another name other storage, adds it or removes it. */
  ghost predicate OtherNamesKept(d: Disk, e: Disk, path: string) {
    forall n | n != Primary(path) && n != Primary(PartName(path)) ::
      (n in e.names <==> n in d.names) && (n in d.names ==> e.names[n] == d.names[n])
  }

  lemma {:induction false} TriesKeepOtherNames(d: Disk, path: string, tries: nat -> Try, attempt: nat)
    requires 1 <= attempt <= 3
    ensures OtherNamesKept(d, Tries(d, path, tries, attempt).disk, path)
    decreases 3 - attempt
  {
    var after := TryOnce(d, path, tries(attempt));
    assert OtherNamesKept(d, after, path);
    if attempt < 3 {
      TriesKeepOtherNames(after, path, tries, attempt + 1);
    }
  }

  lemma ImportKeepsOtherNames(d: Disk, from: Name, path: string, fate: Fate)
    requires from in d.names
    ensures OtherNamesKept(d, Materialise(d, from, Primary(path), fate).disk, path)
  {
  }

  lemma OtherNamesKeptTwice(d: Disk, e: Disk, f: Disk, path: string)
    requires OtherNamesKept(d, e, path) && OtherNamesKept(e, f, path)
    ensures OtherNamesKept(d, f, path)
  {
  }

  lemma StepKeepsOtherNames(d: Disk, file: File, env: Env, fate: Fate)
    ensures OtherNamesKept(d, FileStep(d, file, env, fate).disk, file.path)
  {
    var found := Find(d, env, 0, file.path);
    if found.None? {
      TriesKeepOtherNames(d, file.path, fate.tries, 1);
    } else {
      ImportKeepsOtherNames(d, found.value, file.path, fate);
      var after := Materialise(d, found.value, Primary(file.path), fate).disk;
      TriesKeepOtherNames(after, file.path, fate.tries, 1);
      OtherNamesKeptTwice(d, after, Tries(after, file.path, fate.tries, 1).disk, file.path);
    }
  }

  lemma StepKeepsStaleness(d: Disk, manifest: seq<File>, i: nat, env: Env, j: nat)
    requires Tidy(d, manifest) && NoClash(manifest) && i < |manifest| && j < |manifest| && i != j
    ensures
      var e := FileStep(d, manifest[i], env, env.fates(i)).disk;
      Stale(e, manifest[j]) <==> Stale(d, manifest[j])
  {
    var e, here := FileStep(d, manifest[i], env, env.fates(i)).disk, Primary(manifest[j].path);
    StepKeepsOtherNames(d, manifest[i], env, env.fates(i));
    if here in d.names {
      assert Bystander(d, manifest[i].path, here);
      StepLeaves(d, manifest[i], env, env.fates(i), here);
      assert Satisfied(e, manifest[j]) <==> Satisfied(d, manifest[j]);
    }
    assert here in e.names <==> here in d.names;
    assert forall n: Name | n.Secondary? :: SameStorage(e, n, here) <==> SameStorage(d, n, here);
  }

  lemma FreshStepKeepsSecondaries(d: Disk, manifest: seq<File>, i: nat, env: Env)
    requires Tidy(d, manifest) && NoClash(manifest) && i < |manifest| && !Stale(d, manifest[i])
    ensures SecondariesKept(d, FileStep(d, manifest[i], env, env.fates(i)).disk)
  {
    if !Satisfied(d, manifest[i]) {
      var part := Primary(PartName(manifest[i].path));
      forall n <- d.names | n.Secondary?
        ensures Untouched(d, FileStep(d, manifest[i], env, env.fates(i)).disk, n)
      {
        assert SameStorage(d, n, part) ==> SameStorage(d, part, n);
        assert part.path != manifest[i].path ==> Temporary(manifest, part.path);
        assert Bystander(d, manifest[i].path, n);
        StepLeaves(d, manifest[i], env, env.fates(i), n);
      }
    }
  }

  /** Nothing happened to the secondary files so far, and no file from `k` on is stale. */
  ghost predicate Fresh(start: Disk, d: Disk, manifest: seq<File>, k: nat) {
    && Tidy(d, manifest) && SecondariesKept(start, d)
    && forall j :: k <= j < |manifest| ==> !Stale(d, manifest[j])
  }

  lemma FreshStep(start: Disk, d: Disk, manifest: seq<File>, k: nat, env: Env)
    requires NoClash(manifest) && k < |manifest| && Fresh(start, d, manifest, k)
    ensures Fresh(start, FileStep(d, manifest[k], env, env.fates(k)).disk, manifest, k + 1)
  {
    FreshStepKeepsSecondaries(d, manifest, k, env);
    StepKeepsTidy(d, manifest, k, env, env.fates(k));
    forall j | k < j < |manifest| ensures !Stale(FileStep(d, manifest[k], env, env.fates(k)).disk, manifest[j]) {
      StepKeepsStaleness(d, manifest, k, env, j);
    }
  }

  lemma FreshRunKeepsSecondaries(d: Disk, manifest: seq<File>, env: Env)
    requires NoClash(manifest) && Fresh(d, d, manifest, 0)
    ensures SecondariesKept(d, Run(d, manifest, env).disk)
  {
    ghost var P := (e: Disk, k: nat) => Fresh(d, e, manifest, k);
    ghost var Q := (e: Disk, k: nat) => SecondariesKept(d, e);
    forall e: Disk, k: nat | k < |manifest| && P(e, k) ensures Advances(Stepping(manifest, env), P, Q, e, k) {
      FreshStep(d, e, manifest, k, env);
    }
    RunRule(Stepping(manifest, env), P, Q, d, |manifest|, 0, 0);
  }

  /** All goes well until the process ends while file `i` is being copied. */
  function CutAt(i: nat, root: nat, snapshot: string, written: nat): Env {
    Env(seq(root + 1, _ => [snapshot]), snapshot, k => Fate(true, false, if k == i then StoppedCopy(written) else NotCopied, _ => Received(0)))
  }

  lemma {:induction false} FindReaches(d: Disk, env: Env, from: nat, n: Name)
    requires n in d.names && n.Secondary? && n.snapshot == env.revision && from <= n.root < |env.roots|
    ensures Find(d, env, from, n.path).Some?
    decreases n.root - from
  {
    if from < n.root {
      FindReaches(d, env, from + 1, n);
    }
  }

  lemma {:induction false} FirstTrySucceeds(d: Disk, path: string, tries: nat -> Try)
    requires tries(1).Received?
    ensures Tries(d, path, tries, 1).end.Ready?
  {
  }

  /** File `i` is the first stale one from `k` on, linked to a secondary file of that length. */
  ghost predicate Awaits(start: Disk, d: Disk, manifest: seq<File>, k: nat, i: nat, n: Name) {
    && Tidy(d, manifest) && k <= i < |manifest|
    && n.Secondary? && Untouched(start, d, n)
    && SameStorage(d, n, Primary(manifest[i].path)) && !Satisfied(d, manifest[i])
    && forall j :: k <= j < i ==> !Stale(d, manifest[j])
  }

  lemma StaleCopyChangesSecondary(start: Disk, d: Disk, manifest: seq<File>, i: nat, n: Name, env: Env)
    requires Awaits(start, d, manifest, i, i, n) && env == CutAt(i, n.root, n.snapshot, Length(start, n) + 1)
    ensures
      var step := FileStep(d, manifest[i], env, env.fates(i));
      step.end.Cut? && !Untouched(start, step.disk, n)
  {
    var path := manifest[i].path;
    assert n.path == path;
    FindReaches(d, env, 0, n);
    var e := Written(d, Primary(path), Length(start, n) + 1);
    assert Materialise(d, Find(d, env, 0, path).value, Primary(path), env.fates(i)) == Import(e, false, true);
    assert e.names[n] == d.names[n] && e.lengths[e.names[n]] == Length(start, n) + 1;
  }

  /** The files before the stale one are handled without touching its secondary file. */
  lemma StepStillAwaits(start: Disk, d: Disk, manifest: seq<File>, k: nat, i: nat, n: Name, env: Env)
    requires NoClash(manifest) && k < i && Awaits(start, d, manifest, k, i, n)
    requires env == CutAt(i, n.root, n.snapshot, Length(start, n) + 1)
    ensures
      var step := FileStep(d, manifest[k], env, env.fates(k));
      step.end.Ready? && Awaits(start, step.disk, manifest, k + 1, i, n)
  {
    var fate, file, here := env.fates(k), manifest[k], Primary(manifest[i].path);
    var e := FileStep(d, file, env, fate).disk;
    CopyingNothingIsReady(d, file, env, fate);
    FreshStepKeepsSecondaries(d, manifest, k, env);
    StepKeepsTidy(d, manifest, k, env, fate);
    forall j | k < j < i ensures !Stale(e, manifest[j]) {
      StepKeepsStaleness(d, manifest, k, env, j);
    }
    StepKeepsOtherNames(d, file, env, fate);
    assert Untouched(d, e, n) && SameStorage(e, n, here);
    assert Length(e, here) == Length(e, n) == Length(d, n) == Length(d, here);
  }

  lemma StaleRunChangesSecondary(d: Disk, manifest: seq<File>, i: nat, n: Name, env: Env)
    requires NoClash(manifest) && Awaits(d, d, manifest, 0, i, n)
    requires env == CutAt(i, n.root, n.snapshot, Length(d, n) + 1)
    ensures !SecondariesKept(d, Run(d, manifest, env).disk)
  {
    ghost var P := (e: Disk, k: nat) => Awaits(d, e, manifest, k, i, n);
    ghost var Q := (e: Disk, k: nat) => !Untouched(d, e, n);
    forall e: Disk, k: nat | k < |manifest| && P(e, k) ensures Advances(Stepping(manifest, env), P, Q, e, k) {
      if k < i {
        StepStillAwaits(d, e, manifest, k, i, n, env);
      } else {
        StaleCopyChangesSecondary(d, e, manifest, i, n, env);
      }
    }
    RunRule(Stepping(manifest, env), P, Q, d, |manifest|, 0, 0);
  }

  lemma CopyingNothingIsReady(d: Disk, file: File, env: Env, fate: Fate)
    requires fate.directory && !fate.link && fate.copy.NotCopied? && fate.tries(1).Received?
    ensures FileStep(d, file, env, fate).end.Ready?
  {
    FirstTrySucceeds(d, file.path, fate.tries);
  }

  lemma {:induction false} FirstStale(d: Disk, manifest: seq<File>, last: nat) returns (i: nat)
    requires last < |manifest| && Stale(d, manifest[last])
    ensures i <= last && Stale(d, manifest[i]) && forall j :: 0 <= j < i ==> !Stale(d, manifest[j])
    decreases last
  {
    if j: nat :| j < last && Stale(d, manifest[j]) {
      i := FirstStale(d, manifest, j);
    } else {
      i := last;
    }
  }

  /**
   A download leaves the secondary caches as they are, whatever happens during it, exactly when no file
   that has to be fetched is still linked to one: its fallback copy would write through the link.
  */
  lemma SecondariesAreReadOnlyIff(d: Disk, manifest: seq<File>)
    requires Tidy(d, manifest) && NoClash(manifest)
    ensures (forall env :: SecondariesKept(d, Run(d, manifest, env).disk))
      <==> (forall i :: 0 <= i < |manifest| ==> !Stale(d, manifest[i]))
  {
    if forall i :: 0 <= i < |manifest| ==> !Stale(d, manifest[i]) {
      forall env ensures SecondariesKept(d, Run(d, manifest, env).disk) {
        FreshRunKeepsSecondaries(d, manifest, env);
      }
    } else {
      var last: nat :| last < |manifest| && Stale(d, manifest[last]);
      var i := FirstStale(d, manifest, last);
      var n: Name :| n.Secondary? && SameStorage(d, n, Primary(manifest[i].path));
      StaleRunChangesSecondary(d, manifest, i, n, CutAt(i, n.root, n.snapshot, Length(d, n) + 1));
    }
  }

  lemma {:induction false} DownloadsKeepTidy(d: Disk, manifest: seq<File>, envs: seq<Env>)
    requires Tidy(d, manifest) && NoClash(manifest)
    ensures Tidy(Downloads(d, manifest, envs), manifest)
    decreases |envs|
  {
    if envs != [] {
      DownloadsKeepTidy(d, manifest, envs[..|envs| - 1]);
      RunKeepsTidy(Downloads(d, manifest, envs[..|envs| - 1]), manifest, envs[|envs| - 1]);
    }
  }

  /** So it is for the run after any number of others. */
  lemma NextRunIsReadOnlyIff(d: Disk, manifest: seq<File>, envs: seq<Env>)
    requires Tidy(d, manifest) && NoClash(manifest)
    ensures
      var here := Downloads(d, manifest, envs);
      (forall env :: SecondariesKept(here, Run(here, manifest, env).disk))
      <==> (forall i :: 0 <= i < |manifest| ==> !Stale(here, manifest[i]))
  {
    DownloadsKeepTidy(d, manifest, envs);
    SecondariesAreReadOnlyIff(Downloads(d, manifest, envs), manifest);
  }

  const CACHED: Name := Secondary(0, "main", "w")
  const FOUND: Disk := Disk(map[CACHED := 0], map[0 := 4], 1)
  const WANTED: seq<File> := [File("w", Some(5))]
  const IMPORTING: Env := Env([["main"]], "main", _ => Fate(true, true, WholeCopied, _ => Refused))

  lemma OneFileRun(d: Disk, file: File, env: Env)
    ensures
      var step := FileStep(d, file, env, env.fates(0));
      step.end.Ready? ==> Run(d, [file], env).disk == step.disk && Run(d, [file], env).ending.Completed?
  {
    var step := Stepping([file], env);
    assert step(d, 0) == FileStep(d, file, env, env.fates(0));
    assert RunOf(step, step(d, 0).disk, 1, 1, SaturatingAdd(0, 0)).ending.Completed?;
  }

  /** A stale file arises on its own: the link is taken without a look at the size, and the next run copies over it. */
  lemma SecondRunTruncatesSecondary()
    ensures Tidy(FOUND, WANTED) && NoClash(WANTED) && !Stale(FOUND, WANTED[0])
    ensures
      var first := Run(FOUND, WANTED, IMPORTING);
      && first.ending.Completed? && Stale(first.disk, WANTED[0])
      && var second := Run(first.disk, WANTED, IMPORTING);
      && second.ending.Completed? && CACHED in second.disk.names && Length(second.disk, CACHED) == 0
  {
    var linked := Linked(FOUND, CACHED, Primary("w"));
    assert Find(FOUND, IMPORTING, 0, "w") == Some(CACHED);
    assert FileStep(FOUND, WANTED[0], IMPORTING, IMPORTING.fates(0)).disk == linked;
    OneFileRun(FOUND, WANTED[0], IMPORTING);
    assert SameStorage(linked, CACHED, Primary("w"));
    assert Find(linked, IMPORTING, 0, "w") == Some(CACHED);
    OneFileRun(linked, WANTED[0], IMPORTING);
  }
}
