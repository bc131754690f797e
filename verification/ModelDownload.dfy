/**
 The host-side model downloader: one pass over a manifest, filling a snapshot
 directory from what is already there, from secondary caches by hard link or
 copy, or from the network with three attempts a file.  Files are names of
 storage, so a hard link shares its storage with the file it was made from.
*/
module ModelDownload {
  import opened Wrappers
  import opened Text

  // ----- names and storage ------------------------------------------------------------

  /** A file of the snapshot directory, or one in a snapshot of a secondary cache. */
  datatype Name =
    | Primary(path: string)
    | Secondary(root: nat, snapshot: string, path: string)

  /** Names lead to storage; of the contents only the length matters here. */
  datatype Disk = Disk(names: map<Name, nat>, lengths: map<nat, nat>, next: nat)

  predicate WellFormed(d: Disk) {
    forall n <- d.names :: d.names[n] in d.lengths && d.names[n] < d.next
  }

  function Length(d: Disk, n: Name): nat {
    if n in d.names && d.names[n] in d.lengths then d.lengths[d.names[n]] else 0
  }

  /** Create or truncate, then write: an existing file keeps its storage. */
  function Written(d: Disk, n: Name, length: nat): Disk {
    if n in d.names then d.(lengths := d.lengths[d.names[n] := length])
    else Disk(d.names[n := d.next], d.lengths[d.next := length], d.next + 1)
  }

  function Linked(d: Disk, from: Name, to: Name): Disk
    requires from in d.names
  {
    d.(names := d.names[to := d.names[from]])
  }

  function Renamed(d: Disk, from: Name, to: Name): Disk
    requires from in d.names
  {
    d.(names := (d.names - {from})[to := d.names[from]])
  }

  /** A copy truncates its target before it reads its source. */
  function CopiedLength(d: Disk, from: Name, to: Name): nat
    requires from in d.names
  {
    if to in d.names && d.names[to] == d.names[from] then 0 else Length(d, from)
  }

  // ----- temporary names ----------------------------------------------------------------

  function PartName(path: string): string {
    WithExtension(path, "part")
  }

  /** Beside the file, under its name with another extension or one more. */
  lemma PartBeside(directory: string, name: string, extension: string)
    requires IsDirectory(directory) && name != "" && '/' !in name && '/' !in extension && '.' !in extension
    ensures name != "." || extension != "" ==>
      PartName(directory + name + "." + extension) == directory + name + ".part"
    ensures '.' !in name ==> PartName(directory + name) == directory + name + ".part"
  {
    if name != "." || extension != "" {
      ExtensionReplaced(directory, name, extension, "part");
    }
    if '.' !in name {
      ExtensionAdded(directory, name, "part");
    }
  }

  // ----- what the surroundings decide -----------------------------------------------------

  datatype File = File(path: string, size: Option<nat>)

  /** How one request ends: refused, broken off or cut by the end of the process, or complete. */
  datatype Try = Refused | Broken(written: nat) | Stopped(written: nat) | Received(bytes: nat)

  datatype Copy = NotCopied | HalfCopied(written: nat) | StoppedCopy(written: nat) | WholeCopied

  /** For one file: whether its directory and a hard link can be made, how a copy and each attempt end. */
  datatype Fate = Fate(directory: bool, link: bool, copy: Copy, tries: nat -> Try)

  /** The snapshots of each secondary root in listing order, and the fate of each manifest index. */
  datatype Env = Env(roots: seq<seq<string>>, revision: string, fates: nat -> Fate)

  // ----- one file ---------------------------------------------------------------------------

  predicate Satisfied(d: Disk, file: File) {
    Primary(file.path) in d.names &&
    match file.size
    case Some(size) => Length(d, Primary(file.path)) == size
    case None => Length(d, Primary(file.path)) > 0
  }

  function SizeOrZero(file: File): nat {
    if file.size.Some? then file.size.value else 0
  }

  function FindListed(d: Disk, root: nat, snapshots: seq<string>, path: string): (found: Option<Name>)
    ensures found.Some? ==> found.value in d.names && found.value.Secondary? && found.value.path == path
    ensures found.None? <==> forall s <- snapshots :: Secondary(root, s, path) !in d.names
  {
    if snapshots == [] then None
    else if Secondary(root, snapshots[0], path) in d.names then Some(Secondary(root, snapshots[0], path))
    else FindListed(d, root, snapshots[1..], path)
  }

  /** The first root that has the file, its copy of the wanted revision before any other. */
  function Find(d: Disk, env: Env, root: nat, path: string): (found: Option<Name>)
    requires root <= |env.roots|
    ensures found.Some? ==> found.value in d.names && found.value.Secondary? && found.value.path == path
    decreases |env.roots| - root
  {
    if root == |env.roots| then None
    else if Secondary(root, env.revision, path) in d.names then Some(Secondary(root, env.revision, path))
    else
      match FindListed(d, root, env.roots[root], path)
      case Some(n) => Some(n)
      case None => Find(d, env, root + 1, path)
  }

  /** The root has the file, in the wanted snapshot or in a listed one. */
  predicate RootHas(d: Disk, env: Env, root: nat, path: string)
    requires root < |env.roots|
  {
    || Secondary(root, env.revision, path) in d.names
    || exists s :: s in env.roots[root] && Secondary(root, s, path) in d.names
  }

  /** The snapshot of that root to take: the wanted one, else the first listed one with the file. */
  ghost predicate Preferred(d: Disk, env: Env, root: nat, snapshot: string, path: string)
    requires root < |env.roots|
  {
    && Secondary(root, snapshot, path) in d.names
    && if Secondary(root, env.revision, path) in d.names then snapshot == env.revision
       else exists i :: FirstListed(d, root, env.roots[root], i, path) && env.roots[root][i] == snapshot
  }

  predicate FirstListed(d: Disk, root: nat, snapshots: seq<string>, i: int, path: string) {
    && 0 <= i < |snapshots| && Secondary(root, snapshots[i], path) in d.names
    && forall j :: 0 <= j < i ==> Secondary(root, snapshots[j], path) !in d.names
  }

  lemma {:induction false} FirstListedIs(d: Disk, root: nat, snapshots: seq<string>, path: string) returns (i: nat)
    requires FindListed(d, root, snapshots, path).Some?
    ensures FirstListed(d, root, snapshots, i, path)
    ensures FindListed(d, root, snapshots, path) == Some(Secondary(root, snapshots[i], path))
  {
    if Secondary(root, snapshots[0], path) in d.names {
      i := 0;
    } else {
      i := FirstListedIs(d, root, snapshots[1..], path);
      i := i + 1;
    }
  }

  /** The file found is of the first root that has it, and the preferred one there. */
  lemma {:induction false} FindsFirstRoot(d: Disk, env: Env, root: nat, path: string)
    requires root <= |env.roots|
    ensures
      match Find(d, env, root, path)
      case None => forall r: nat :: root <= r < |env.roots| ==> !RootHas(d, env, r, path)
      case Some(found) =>
        && root <= found.root < |env.roots| && Preferred(d, env, found.root, found.snapshot, path)
        && forall r: nat :: root <= r < found.root ==> !RootHas(d, env, r, path)
    decreases |env.roots| - root
  {
    if root < |env.roots| && Secondary(root, env.revision, path) !in d.names {
      if FindListed(d, root, env.roots[root], path).Some? {
        var i := FirstListedIs(d, root, env.roots[root], path);
      } else {
        assert !RootHas(d, env, root, path);
        FindsFirstRoot(d, env, root + 1, path);
      }
    }
  }

  datatype Event =
    | Importing(path: string, from: Name, bytes: nat)
    | Progress(bytes: nat, files: nat)
    | Retrying(path: string, attempt: nat)
    | Complete

  datatype End = Ready(credit: nat) | GaveUp | Cut

  datatype Step = Step(disk: Disk, end: End, events: seq<Event>)

  /** A download writes beside its target and takes its place at the end. */
  function TryOnce(d: Disk, path: string, try: Try): Disk {
    match try
    case Refused => d
    case Broken(n) => Written(d, Primary(PartName(path)), n)
    case Stopped(n) => Written(d, Primary(PartName(path)), n)
    case Received(n) => Renamed(Written(d, Primary(PartName(path)), n), Primary(PartName(path)), Primary(path))
  }

  function Tries(d: Disk, path: string, tries: nat -> Try, attempt: nat): Step
    requires 1 <= attempt <= 3
    decreases 3 - attempt
  {
    var try := tries(attempt);
    var after := TryOnce(d, path, try);
    if try.Received? then Step(after, Ready(try.bytes), [])
    else if try.Stopped? then Step(after, Cut, [])
    else if attempt < 3 then
      var rest := Tries(after, path, tries, attempt + 1);
      rest.(events := [Retrying(path, attempt)] + rest.events)
    else Step(after, GaveUp, [])
  }

  datatype Import = Import(disk: Disk, done: bool, stopped: bool)

  /** A link, if its name is free; else a copy over whatever is there. */
  function Materialise(d: Disk, from: Name, to: Name, fate: Fate): Import
    requires from in d.names
  {
    if fate.link && to !in d.names then Import(Linked(d, from, to), true, false)
    else
      match fate.copy
      case NotCopied => Import(d, false, false)
      case HalfCopied(n) => Import(Written(d, to, n), false, false)
      case StoppedCopy(n) => Import(Written(d, to, n), false, true)
      case WholeCopied => Import(Written(d, to, CopiedLength(d, from, to)), true, false)
  }

  function FileStep(d: Disk, file: File, env: Env, fate: Fate): Step {
    if !fate.directory then Step(d, GaveUp, [])
    else if Satisfied(d, file) then Step(d, Ready(SizeOrZero(file)), [])
    else
      match Find(d, env, 0, file.path)
      case None => Tries(d, file.path, fate.tries, 1)
      case Some(from) =>
        var import_ := Materialise(d, from, Primary(file.path), fate);
        if import_.done then
          Step(import_.disk, Ready(SizeOrZero(file)), [Importing(file.path, from, SizeOrZero(file))])
        else if import_.stopped then Step(import_.disk, Cut, [])
        else Tries(import_.disk, file.path, fate.tries, 1)
  }

  // ----- what one file comes to --------------------------------------------------------------

  /** There with the announced size, or with anything in it if no size is announced. */
  predicate Whole(d: Disk, file: File) {
    && Primary(file.path) in d.names && d.names[Primary(file.path)] in d.lengths
    && var stored := d.lengths[d.names[Primary(file.path)]];
       if file.size.Some? then stored == file.size.value else stored > 0
  }

  /** A whole file is left alone; any other is linked, copied or fetched. */
  lemma FileOutcome(d: Disk, file: File, env: Env, fate: Fate)
    requires WellFormed(d) && fate.directory
    ensures
      var step, credit := FileStep(d, file, env, fate), if file.size.Some? then file.size.value else 0;
      if Whole(d, file) then step == Step(d, Ready(credit), [])
      else
        match Find(d, env, 0, file.path)
        case None => step == Tries(d, file.path, fate.tries, 1)
        case Some(from) =>
          if fate.link && Primary(file.path) !in d.names then
            && step.end == Ready(credit) && step.events == [Importing(file.path, from, credit)]
            && step.disk == d.(names := d.names[Primary(file.path) := d.names[from]])
          else if fate.copy.WholeCopied? then
            step.end == Ready(credit) && step.events == [Importing(file.path, from, credit)]
          else if fate.copy.StoppedCopy? then step.end == Cut
          else step == Tries(Materialise(d, from, Primary(file.path), fate).disk, file.path, fate.tries, 1)
  {
  }

  /** Some file has that name and length now; other names lead where they did. */
  ghost predicate Stores(d: Disk, d': Disk, n: Name, length: nat) {
    && n in d'.names && d'.names[n] in d'.lengths && d'.lengths[d'.names[n]] == length
    && forall other :: other != n ==>
         (other in d.names <==> other in d'.names) && (other in d.names ==> d'.names[other] == d.names[other])
  }

  /** An attempt that breaks off leaves its bytes beside the file; a complete one takes the file's place with them. */
  lemma AttemptLeaves(d: Disk, path: string, try: Try)
    ensures
      var d', part := TryOnce(d, path, try), Primary(PartName(path));
      match try
      case Refused => d' == d
      case Broken(n) => Stores(d, d', part, n)
      case Stopped(n) => Stores(d, d', part, n)
      case Received(n) =>
        && Primary(path) in d'.names && d'.lengths[d'.names[Primary(path)]] == n
        && (part != Primary(path) ==> part !in d'.names)
        && forall other | other != part && other != Primary(path) ::
             (other in d.names <==> other in d'.names) && (other in d.names ==> d'.names[other] == d.names[other])
  {
  }

  // ----- the whole manifest -------------------------------------------------------------------

  /** Ended with the manifest done, or at the file of that index. */
  datatype Ending = Completed | FailedAt(index: nat) | StoppedAt(index: nat)

  datatype Outcome = Outcome(disk: Disk, ending: Ending, events: seq<Event>)

  /** What handling the file of each index does. */
  type Stepper = (Disk, nat) -> Step

  /** Files `k` to `n`, the first failure ending the run. */
  function RunOf(step: Stepper, d: Disk, n: nat, k: nat, overall: nat): Outcome
    requires k <= n
    decreases n - k
  {
    if k == n then Outcome(d, Completed, [Complete])
    else
      var here := step(d, k);
      match here.end
      case GaveUp => Outcome(here.disk, FailedAt(k), here.events)
      case Cut => Outcome(here.disk, StoppedAt(k), here.events)
      case Ready(credit) =>
        var sum := SaturatingAdd(overall, credit);
        var rest := RunOf(step, here.disk, n, k + 1, sum);
        rest.(events := here.events + [Progress(sum, k + 1)] + rest.events)
  }

  function Stepping(manifest: seq<File>, env: Env): Stepper {
    (d: Disk, k: nat) => if k < |manifest| then FileStep(d, manifest[k], env, env.fates(k)) else Step(d, GaveUp, [])
  }

  function Run(d: Disk, manifest: seq<File>, env: Env): Outcome {
    RunOf(Stepping(manifest, env), d, |manifest|, 0, 0)
  }

  /** How the file system and the event channel change while the manifest is worked off. */
  class Cache {
    var disk: Disk
    var events: seq<Event>

    constructor (found: Disk)
      ensures disk == found && events == []
    {
      disk := found;
      events := [];
    }

    /** Every root in turn: the wanted revision, then whatever the listing shows first. */
    method FindInSecondary(env: Env, path: string) returns (found: Option<Name>)
      ensures found == Find(disk, env, 0, path)
    {
      for root := 0 to |env.roots|
        invariant Find(disk, env, 0, path) == Find(disk, env, root, path)
      {
        var exact := Secondary(root, env.revision, path);
        if exact in disk.names {
          return Some(exact);
        }
        var snapshots := env.roots[root];
        for i := 0 to |snapshots|
          invariant FindListed(disk, root, snapshots, path) == FindListed(disk, root, snapshots[i..], path)
        {
          var candidate := Secondary(root, snapshots[i], path);
          if candidate in disk.names {
            return Some(candidate);
          }
          assert snapshots[i..][1..] == snapshots[i + 1..];
        }
      }
      return None;
    }

    method MaterialiseFromSecondary(from: Name, to: Name, fate: Fate) returns (done: bool, stopped: bool)
      requires from in disk.names
      modifies this`disk
      ensures Import(disk, done, stopped) == Materialise(old(disk), from, to, fate)
    {
      done, stopped := true, false;
      if fate.link && to !in disk.names {
        disk := Linked(disk, from, to);
        return;
      }
      match fate.copy
      case NotCopied => done := false;
      case HalfCopied(n) => disk := Written(disk, to, n); done := false;
      case StoppedCopy(n) => disk := Written(disk, to, n); done, stopped := false, true;
      case WholeCopied => disk := Written(disk, to, CopiedLength(disk, from, to));
    }

    /** The retry loop around one file's download. */
    method Download(path: string, tries: nat -> Try) returns (end: End)
      modifies this
      ensures
        var step := Tries(old(disk), path, tries, 1);
        disk == step.disk && end == step.end && events == old(events) + step.events
    {
      var attempt: nat := 1;
      while true
        invariant 1 <= attempt <= 3
        invariant
          var whole, rest := Tries(old(disk), path, tries, 1), Tries(disk, path, tries, attempt);
          && whole.disk == rest.disk && whole.end == rest.end
          && old(events) + whole.events == events + rest.events
        decreases 3 - attempt
      {
        var try := tries(attempt);
        disk := TryOnce(disk, path, try);
        if try.Received? {
          return Ready(try.bytes);
        } else if try.Stopped? {
          return Cut;
        } else if attempt == 3 {
          return GaveUp;
        }
        events := events + [Retrying(path, attempt)];
        attempt := attempt + 1;
      }
    }

    method HandleFile(file: File, env: Env, fate: Fate) returns (end: End)
      modifies this
      ensures
        var step := FileStep(old(disk), file, env, fate);
        disk == step.disk && end == step.end && events == old(events) + step.events
    {
      if !fate.directory {
        return GaveUp;
      }
      if Satisfied(disk, file) {
        return Ready(SizeOrZero(file));
      }
      var found := FindInSecondary(env, file.path);
      if found.Some? {
        var done, stopped := MaterialiseFromSecondary(found.value, Primary(file.path), fate);
        if done {
          events := events + [Importing(file.path, found.value, SizeOrZero(file))];
          return Ready(SizeOrZero(file));
        } else if stopped {
          return Cut;
        }
      }
      end := Download(file.path, fate.tries);
    }

    method RunDownload(manifest: seq<File>, env: Env) returns (ending: Ending)
      modifies this
      ensures
        var run := Run(old(disk), manifest, env);
        disk == run.disk && ending == run.ending && events == old(events) + run.events
    {
      var overall: nat := 0;
      ghost var step := Stepping(manifest, env);
      ghost var whole := Run(disk, manifest, env);
      for k := 0 to |manifest|
        invariant Continues(whole, old(events), step, disk, |manifest|, k, overall, events)
      {
        assert step(disk, k) == FileStep(disk, manifest[k], env, env.fates(k));
        FileHandled(whole, old(events), step, disk, |manifest|, k, overall, events);
        var end := HandleFile(manifest[k], env, env.fates(k));
        match end
        case GaveUp => return FailedAt(k);
        case Cut => return StoppedAt(k);
        case Ready(credit) =>
          overall := SaturatingAdd(overall, credit);
          events := events + [Progress(overall, k + 1)];
      }
      events := events + [Complete];
      return Completed;
    }
  }

  /** A run from here, after the events sent so far, completes the whole run. */
  ghost predicate Continues(
      whole: Outcome, before: seq<Event>, step: Stepper, d: Disk, n: nat, k: nat, overall: nat, sent: seq<Event>)
  {
    k <= n &&
    var rest := RunOf(step, d, n, k, overall);
    whole.disk == rest.disk && whole.ending == rest.ending && before + whole.events == sent + rest.events
  }

  lemma FileHandled(
      whole: Outcome, before: seq<Event>, step: Stepper, d: Disk, n: nat, k: nat, overall: nat, sent: seq<Event>)
    requires k < n && Continues(whole, before, step, d, n, k, overall, sent)
    ensures
      var here := step(d, k);
      match here.end
      case GaveUp => whole.disk == here.disk && whole.ending == FailedAt(k) && before + whole.events == sent + here.events
      case Cut => whole.disk == here.disk && whole.ending == StoppedAt(k) && before + whole.events == sent + here.events
      case Ready(credit) =>
        var sum := SaturatingAdd(overall, credit);
        Continues(whole, before, step, here.disk, n, k + 1, sum, sent + here.events + [Progress(sum, k + 1)])
  {
  }

  // ----- reasoning about runs ---------------------------------------------------------------

  function Handled(ending: Ending, n: nat): nat {
    match ending
    case Completed => n
    case FailedAt(k) => k
    case StoppedAt(k) => k
  }

  /** A step that succeeds takes `P` to the next file, one that ends the run makes `Q` hold. */
  predicate Advances(step: Stepper, P: (Disk, nat) -> bool, Q: (Disk, nat) -> bool, d: Disk, k: nat) {
    var here := step(d, k);
    if here.end.Ready? then P(here.disk, k + 1) else Q(here.disk, k)
  }

  /** If `P` holds at the first file and every step advances, `Q` holds at the end. */
  lemma {:induction false} RunRule(
      step: Stepper, P: (Disk, nat) -> bool, Q: (Disk, nat) -> bool, d: Disk, n: nat, k: nat, overall: nat)
    requires k <= n && P(d, k)
    requires forall e: Disk, i: nat | i < n && P(e, i) :: Advances(step, P, Q, e, i)
    requires forall e: Disk | P(e, n) :: Q(e, n)
    ensures
      var run := RunOf(step, d, n, k, overall);
      && Q(run.disk, Handled(run.ending, n))
      && k <= Handled(run.ending, n) <= n && (run.ending.Completed? <==> Handled(run.ending, n) == n)
    decreases n - k
  {
    if k < n {
      var here := step(d, k);
      assert Advances(step, P, Q, d, k);
      if here.end.Ready? {
        RunRule(step, P, Q, here.disk, n, k + 1, SaturatingAdd(overall, here.end.credit));
      }
    }
  }

  /** What no step takes away holds at the end if it holds when some file is reached. */
  lemma {:induction false} RunLonger(step: Stepper, P: Disk -> bool, d: Disk, i: nat, n: nat, k: nat, overall: nat)
    requires k <= i <= n && P(RunOf(step, d, i, k, overall).disk)
    requires forall e: Disk, a: nat | a < n && P(e) :: P(step(e, a).disk)
    ensures P(RunOf(step, d, n, k, overall).disk)
    decreases i - k
  {
    if k == i {
      var PP := (e: Disk, a: nat) => P(e);
      assert forall e: Disk, a: nat | a < n && PP(e, a) :: Advances(step, PP, PP, e, a);
      RunRule(step, PP, PP, d, n, k, overall);
    } else {
      var here := step(d, k);
      if here.end.Ready? {
        RunLonger(step, P, here.disk, i, n, k + 1, SaturatingAdd(overall, here.end.credit));
      }
    }
  }

  // ----- attempts -----------------------------------------------------------------------------

  predicate Failing(try: Try) {
    try.Refused? || try.Broken?
  }

  function Retries(path: string, from: nat, count: nat): seq<Event> {
    seq(count, i requires 0 <= i < count => Retrying(path, from + i))
  }

  lemma {:induction false} AttemptEnds(d: Disk, path: string, tries: nat -> Try, from: nat, last: nat)
    requires 1 <= from <= last <= 3
    requires forall a :: from <= a < last ==> Failing(tries(a))
    requires Failing(tries(last)) ==> last == 3
    ensures
      var step := Tries(d, path, tries, from);
      && step.end == (match tries(last) case Received(n) => Ready(n) case Stopped(_) => Cut case _ => GaveUp)
      && step.events == Retries(path, from, last - from)
    decreases last - from
  {
    if from < last {
      AttemptEnds(TryOnce(d, path, tries(from)), path, tries, from + 1, last);
      assert [Retrying(path, from)] + Retries(path, from + 1, last - from - 1) == Retries(path, from, last - from);
    }
  }

  /** A download gives up exactly when its first three attempts fail, and every attempt before the last is announced. */
  lemma ThreeAttempts(d: Disk, path: string, tries: nat -> Try) returns (last: nat)
    ensures 1 <= last <= 3
    ensures
      var step := Tries(d, path, tries, 1);
      && (step.end.GaveUp? <==> Failing(tries(1)) && Failing(tries(2)) && Failing(tries(3)))
      && (forall n :: step.end == Ready(n) <==> tries(last) == Received(n))
      && (forall a :: 1 <= a < last ==> Failing(tries(a)))
      && step.events == Retries(path, 1, last - 1)
  {
    last := if !Failing(tries(1)) then 1 else if !Failing(tries(2)) then 2 else 3;
    AttemptEnds(d, path, tries, 1, last);
  }

  // ----- presence -----------------------------------------------------------------------------

  lemma {:induction false} TriesKeepName(d: Disk, path: string, tries: nat -> Try, attempt: nat, n: Name)
    requires 1 <= attempt <= 3
    ensures n in d.names && n != Primary(PartName(path)) ==> n in Tries(d, path, tries, attempt).disk.names
    ensures Tries(d, path, tries, attempt).end.Ready? ==> Primary(path) in Tries(d, path, tries, attempt).disk.names
    decreases 3 - attempt
  {
    var after := TryOnce(d, path, tries(attempt));
    assert n in d.names && n != Primary(PartName(path)) ==> n in after.names;
    if attempt < 3 {
      TriesKeepName(after, path, tries, attempt + 1, n);
    }
  }

  /** A file's step removes nothing but its temporary file, and leaves the file itself when it succeeds. */
  lemma StepKeepsName(d: Disk, file: File, env: Env, fate: Fate, n: Name)
    ensures
      var step := FileStep(d, file, env, fate);
      && (n in d.names && n != Primary(PartName(file.path)) ==> n in step.disk.names)
      && (step.end.Ready? ==> Primary(file.path) in step.disk.names)
  {
    match Find(d, env, 0, file.path)
    case None => TriesKeepName(d, file.path, fate.tries, 1, n);
    case Some(from) =>
      ImportKeepsName(d, from, Primary(file.path), fate, n);
      TriesKeepName(Materialise(d, from, Primary(file.path), fate).disk, file.path, fate.tries, 1, n);
  }

  lemma ImportKeepsName(d: Disk, from: Name, to: Name, fate: Fate, n: Name)
    requires from in d.names
    ensures
      var imported := Materialise(d, from, to, fate);
      (n in d.names ==> n in imported.disk.names) && (imported.done ==> to in imported.disk.names)
  {
  }

  predicate Distinct(manifest: seq<File>) {
    forall i, j :: 0 <= i < j < |manifest| ==> manifest[i].path != manifest[j].path
  }

  /** No file is named like the temporary file of a later one. */
  predicate NothingClobbered(manifest: seq<File>) {
    forall i, j :: 0 <= i < j < |manifest| ==> manifest[i].path != PartName(manifest[j].path)
  }

  predicate FirstPresent(d: Disk, manifest: seq<File>, k: nat) {
    k <= |manifest| && forall i :: 0 <= i < k ==> Primary(manifest[i].path) in d.names
  }

  lemma StepKeepsPresent(d: Disk, manifest: seq<File>, k: nat, env: Env)
    requires k < |manifest| && FirstPresent(d, manifest, k) && NothingClobbered(manifest)
    ensures
      var step := FileStep(d, manifest[k], env, env.fates(k));
      FirstPresent(step.disk, manifest, if step.end.Ready? then k + 1 else k)
  {
    var step := FileStep(d, manifest[k], env, env.fates(k));
    StepKeepsName(d, manifest[k], env, env.fates(k), Primary(""));
    forall i | 0 <= i < k ensures Primary(manifest[i].path) in step.disk.names {
      StepKeepsName(d, manifest[k], env, env.fates(k), Primary(manifest[i].path));
    }
  }

  /** However a run ends, every file it got past is there. */
  lemma HandledIsPresent(d: Disk, manifest: seq<File>, env: Env)
    requires NothingClobbered(manifest)
    ensures FirstPresent(Run(d, manifest, env).disk, manifest, Handled(Run(d, manifest, env).ending, |manifest|))
  {
    var P := (e: Disk, k: nat) => FirstPresent(e, manifest, k);
    forall e: Disk, k: nat | k < |manifest| && P(e, k) ensures Advances(Stepping(manifest, env), P, P, e, k) {
      StepKeepsPresent(e, manifest, k, env);
    }
    RunRule(Stepping(manifest, env), P, P, d, |manifest|, 0, 0);
  }

  /** Every run that reports completion has every file of the manifest. */
  ghost predicate CompletionIsReal(manifest: seq<File>) {
    forall d, env :: CompletedWithAll(Run(d, manifest, env), manifest)
  }

  predicate CompletedWithAll(run: Outcome, manifest: seq<File>) {
    run.ending.Completed? ==> FirstPresent(run.disk, manifest, |manifest|)
  }

  const EMPTY: Disk := Disk(map[], map[], 0)

  /** No secondary cache, and every download succeeds at once. */
  const SMOOTH: Env := Env([], "", _ => Fate(true, false, NotCopied, _ => Received(1)))

  lemma SmoothStep(d: Disk, file: File, k: nat, n: Name)
    ensures
      var step := FileStep(d, file, SMOOTH, SMOOTH.fates(k));
      && step.end.Ready?
      && (n !in d.names && n != Primary(file.path) ==> n !in step.disk.names)
      && (Primary(file.path) !in d.names && file.path != PartName(file.path) ==> Primary(PartName(file.path)) !in step.disk.names)
  {
  }

  /** Before file `j` is taken up it is missing; from then on the file with its temporary name is. */
  predicate Clobbering(d: Disk, manifest: seq<File>, j: nat, gone: string, k: nat)
    requires j < |manifest|
  {
    if k <= j then Primary(manifest[j].path) !in d.names else Primary(gone) !in d.names
  }

  lemma ClobberingStep(d: Disk, manifest: seq<File>, k: nat, j: nat, gone: string)
    requires j < |manifest| && k < |manifest| && Distinct(manifest)
    requires gone == PartName(manifest[j].path) != manifest[j].path
    requires forall i :: j < i < |manifest| ==> manifest[i].path != gone
    requires Clobbering(d, manifest, j, gone, k)
    ensures
      var step := FileStep(d, manifest[k], SMOOTH, SMOOTH.fates(k));
      step.end.Ready? && Clobbering(step.disk, manifest, j, gone, k + 1)
  {
    SmoothStep(d, manifest[k], k, if k <= j then Primary(manifest[j].path) else Primary(gone));
  }

  /** A run without a hitch in which file `j` replaces the earlier file that has its temporary name. */
  lemma LaterDownloadClobbers(manifest: seq<File>, j: nat, gone: string)
    requires j < |manifest| && Distinct(manifest)
    requires gone == PartName(manifest[j].path) != manifest[j].path
    requires forall i :: j < i < |manifest| ==> manifest[i].path != gone
    ensures
      var run := Run(EMPTY, manifest, SMOOTH);
      run.ending.Completed? && Primary(gone) !in run.disk.names
  {
    var P := (e: Disk, k: nat) => Clobbering(e, manifest, j, gone, k);
    var Q := (e: Disk, k: nat) => k == |manifest| && Primary(gone) !in e.names;
    forall e: Disk, k: nat | k < |manifest| && P(e, k) ensures Advances(Stepping(manifest, SMOOTH), P, Q, e, k) {
      ClobberingStep(e, manifest, k, j, gone);
    }
    RunRule(Stepping(manifest, SMOOTH), P, Q, EMPTY, |manifest|, 0, 0);
  }

  /** Completion can be trusted exactly for the manifests in which no file is a later file's temporary name. */
  lemma CompletionIsRealIff(manifest: seq<File>)
    requires Distinct(manifest)
    ensures CompletionIsReal(manifest) <==> NothingClobbered(manifest)
  {
    if NothingClobbered(manifest) {
      forall d, env ensures CompletedWithAll(Run(d, manifest, env), manifest) {
        HandledIsPresent(d, manifest, env);
      }
    } else {
      var i, j :| 0 <= i < j < |manifest| && manifest[i].path == PartName(manifest[j].path);
      LaterDownloadClobbers(manifest, j, manifest[i].path);
      assert !CompletedWithAll(Run(EMPTY, manifest, SMOOTH), manifest);
    }
  }
}
