/**
 Validation of a workspace snapshot: an explicit-stack walk of a directory tree
 against a recursive statement of what an acceptable tree is.
*/
module SnapshotWalk {
  import opened Wrappers
  import opened Text
  import opened CaseLaws

  /** A file-system object as the walk observes it. */
  datatype Node =
    | Directory(entries: seq<Entry>)
    | UnreadableDirectory
    | File(length: nat, links: nat)
    | Link
    | Other
    | NoMetadata

  datatype Entry = Entry(name: string, node: Node) | BadEntry

  const MAX_DEPTH: nat := 64
  const MAX_FILE: nat := 10 * 1024 * 1024
  const MAX_TOTAL: nat := 100 * 1024 * 1024
  const MAX_FILES: nat := 10_000

  const SECRET_DOTFILES: seq<string> := [".env", ".ssh", ".git-credentials", ".npmrc", ".pypirc"]

  const SECRET_PARTS: seq<string> :=
    ["credentials", "secrets", "id_rsa", "id_ed25519", ".pem", ".key", ".p12", ".pfx", ".keystore", ".kubeconfig"]

  predicate IsSecret(name: string) {
    var lower := Lower(name);
    || (StartsWith(lower, ".") && lower in SECRET_DOTFILES)
    || (exists i :: 0 <= i < |SECRET_PARTS| && Contains(lower, SECRET_PARTS[i]))
  }

  // ----- the acceptable trees --------------------------------------------------------

  /** Nothing below the entries is refused on its own account. `depth` is that of their directory. */
  predicate Clean(entries: seq<Entry>, depth: nat) {
    entries == [] || (CleanEntry(entries[0], depth) && Clean(entries[1..], depth))
  }

  predicate CleanEntry(entry: Entry, depth: nat) {
    && entry.Entry?
    && !IsSecret(entry.name)
    && match entry.node
       case Directory(inner) => depth + 1 <= MAX_DEPTH && Clean(inner, depth + 1)
       case UnreadableDirectory => false
       case File(length, links) => links <= 1 && length <= MAX_FILE
       case Link => false
       case Other => true
       case NoMetadata => false
  }

  function EntryBytes(entry: Entry): nat {
    if entry.BadEntry? then 0
    else
      match entry.node
      case Directory(inner) => TotalBytes(inner)
      case File(length, _) => length
      case _ => 0
  }

  function TotalBytes(entries: seq<Entry>): nat {
    if entries == [] then 0 else EntryBytes(entries[0]) + TotalBytes(entries[1..])
  }

  function EntryFiles(entry: Entry): nat {
    if entry.BadEntry? then 0
    else
      match entry.node
      case Directory(inner) => TotalFiles(inner)
      case File(_, _) => 1
      case _ => 0
  }

  function TotalFiles(entries: seq<Entry>): nat {
    if entries == [] then 0 else EntryFiles(entries[0]) + TotalFiles(entries[1..])
  }

  predicate Acceptable(root: Node) {
    && root.Directory?
    && Clean(root.entries, 0)
    && TotalBytes(root.entries) <= MAX_TOTAL
    && TotalFiles(root.entries) <= MAX_FILES
  }

  // ----- the tree by its paths ------------------------------------------------------------

  /** The entry at the end of a path of positions, one for each directory on the way. */
  function EntryAt(entries: seq<Entry>, path: seq<nat>): (found: Option<Entry>)
    decreases |path|
  {
    if path == [] || path[0] >= |entries| then None
    else if |path| == 1 then Some(entries[path[0]])
    else if entries[path[0]].Entry? && entries[path[0]].node.Directory? then
      EntryAt(entries[path[0]].node.entries, path[1..])
    else None
  }

  /** A secret dotfile, or a name with a secret part; letters in either case. */
  ghost predicate SecretName(name: string) {
    || SameWord(name, ".env") || SameWord(name, ".ssh") || SameWord(name, ".git-credentials")
    || SameWord(name, ".npmrc") || SameWord(name, ".pypirc")
    || HoldsWord(name, "credentials") || HoldsWord(name, "secrets") || HoldsWord(name, "id_rsa")
    || HoldsWord(name, "id_ed25519") || HoldsKeyFile(name)
  }

  ghost predicate HoldsKeyFile(name: string) {
    || HoldsWord(name, ".pem") || HoldsWord(name, ".key") || HoldsWord(name, ".p12") || HoldsWord(name, ".pfx")
    || HoldsWord(name, ".keystore") || HoldsWord(name, ".kubeconfig")
  }

  lemma DotfileIff(name: string)
    ensures StartsWith(Lower(name), ".") && Lower(name) in SECRET_DOTFILES <==>
      || SameWord(name, ".env") || SameWord(name, ".ssh") || SameWord(name, ".git-credentials")
      || SameWord(name, ".npmrc") || SameWord(name, ".pypirc")
  {
    LowerIsSameWord(name, ".env");
    LowerIsSameWord(name, ".ssh");
    LowerIsSameWord(name, ".git-credentials");
    LowerIsSameWord(name, ".npmrc");
    LowerIsSameWord(name, ".pypirc");
    assert forall dotfile <- SECRET_DOTFILES :: StartsWith(dotfile, ".");
  }

  lemma KeyFileIff(name: string)
    ensures (exists i :: 4 <= i < 10 && Contains(Lower(name), SECRET_PARTS[i])) <==> HoldsKeyFile(name)
  {
    LowerContainsIff(name, ".pem");
    LowerContainsIff(name, ".key");
    LowerContainsIff(name, ".p12");
    LowerContainsIff(name, ".pfx");
    LowerContainsIff(name, ".keystore");
    LowerContainsIff(name, ".kubeconfig");
    assert SECRET_PARTS[4] == ".pem" && SECRET_PARTS[5] == ".key" && SECRET_PARTS[6] == ".p12";
    assert SECRET_PARTS[7] == ".pfx" && SECRET_PARTS[8] == ".keystore" && SECRET_PARTS[9] == ".kubeconfig";
  }

  lemma SecretNameIff(name: string)
    ensures IsSecret(name) <==> SecretName(name)
  {
    DotfileIff(name);
    KeyFileIff(name);
    LowerContainsIff(name, "credentials");
    LowerContainsIff(name, "secrets");
    LowerContainsIff(name, "id_rsa");
    LowerContainsIff(name, "id_ed25519");
    assert SECRET_PARTS[0] == "credentials" && SECRET_PARTS[1] == "secrets" && SECRET_PARTS[2] == "id_rsa";
    assert SECRET_PARTS[3] == "id_ed25519" && |SECRET_PARTS| == 10;
  }

  /** What an entry must be, so many levels below the root. */
  ghost predicate Allowed(entry: Entry, level: nat) {
    && entry.Entry?
    && !SecretName(entry.name)
    && match entry.node
       case Directory(_) => level <= 64
       case File(length, links) => links <= 1 && length <= 10_485_760
       case Other => true
       case _ => false
  }

  ghost predicate AllAllowed(entries: seq<Entry>, depth: nat) {
    forall path :: EntryAt(entries, path).Some? ==> Allowed(EntryAt(entries, path).value, depth + |path|)
  }

  lemma {:induction false} CleanPath(entries: seq<Entry>, depth: nat, path: seq<nat>)
    requires Clean(entries, depth) && EntryAt(entries, path).Some?
    ensures Allowed(EntryAt(entries, path).value, depth + |path|)
    decreases |path|
  {
    CleanIsForall(entries, depth);
    var entry := entries[path[0]];
    SecretNameIff(entry.name);
    if |path| > 1 {
      CleanPath(entry.node.entries, depth + 1, path[1..]);
    }
  }

  lemma BelowEntry(entries: seq<Entry>, depth: nat, i: nat)
    requires AllAllowed(entries, depth) && i < |entries|
    ensures Allowed(entries[i], depth + 1)
    ensures entries[i].node.Directory? ==> AllAllowed(entries[i].node.entries, depth + 1)
  {
    assert EntryAt(entries, [i]) == Some(entries[i]);
    if entries[i].node.Directory? {
      var inner := entries[i].node.entries;
      forall path | EntryAt(inner, path).Some? ensures Allowed(EntryAt(inner, path).value, depth + 1 + |path|) {
        assert ([i] + path)[1..] == path;
        assert EntryAt(entries, [i] + path) == EntryAt(inner, path);
      }
    }
  }

  lemma {:induction false} AllowedIsClean(entries: seq<Entry>, depth: nat)
    requires AllAllowed(entries, depth)
    ensures Clean(entries, depth)
    decreases entries
  {
    forall i | 0 <= i < |entries| ensures CleanEntry(entries[i], depth) {
      BelowEntry(entries, depth, i);
      SecretNameIff(entries[i].name);
      if entries[i].node.Directory? {
        AllowedIsClean(entries[i].node.entries, depth + 1);
      }
    }
    CleanIsForall(entries, depth);
  }

  /** A tree is accepted exactly if every entry at every depth is allowed and the files keep to 100 MiB and 10,000. */
  lemma AcceptedIff(root: Node)
    ensures Acceptable(root) <==>
      && root.Directory? && AllAllowed(root.entries, 0)
      && TotalBytes(root.entries) <= 104_857_600 && TotalFiles(root.entries) <= 10_000
  {
    if root.Directory? {
      if Clean(root.entries, 0) {
        forall path | EntryAt(root.entries, path).Some?
          ensures Allowed(EntryAt(root.entries, path).value, |path|)
        {
          CleanPath(root.entries, 0, path);
        }
      }
      if AllAllowed(root.entries, 0) {
        AllowedIsClean(root.entries, 0);
      }
    }
  }

  // ----- the walk ----------------------------------------------------------------------

  datatype Pending = Pending(node: Node, depth: nat)

  datatype Refusal = TooDeep | Unreadable | SecretPath | LinkFound | MultiplyLinked | OverBudget

  predicate CleanDirectory(p: Pending) {
    p.node.Directory? && p.depth <= MAX_DEPTH && Clean(p.node.entries, p.depth)
  }

  predicate CleanStack(stack: seq<Pending>) {
    forall i :: 0 <= i < |stack| ==> CleanDirectory(stack[i])
  }

  function NodeBytes(node: Node): nat {
    if node.Directory? then TotalBytes(node.entries) else 0
  }

  function NodeFiles(node: Node): nat {
    if node.Directory? then TotalFiles(node.entries) else 0
  }

  function StackBytes(stack: seq<Pending>): nat {
    if stack == [] then 0 else StackBytes(stack[..|stack| - 1]) + NodeBytes(stack[|stack| - 1].node)
  }

  function StackFiles(stack: seq<Pending>): nat {
    if stack == [] then 0 else StackFiles(stack[..|stack| - 1]) + NodeFiles(stack[|stack| - 1].node)
  }

  /** How many directory entries are still to be read below the stack. */
  function StackWork(stack: seq<Pending>): nat {
    if stack == [] then 0 else StackWork(stack[..|stack| - 1]) + Work(stack[|stack| - 1].node)
  }

  function Work(node: Node): nat {
    if node.Directory? then 1 + EntriesWork(node.entries) else 1
  }

  function EntriesWork(entries: seq<Entry>): nat {
    if entries == [] then 0
    else (if entries[0].Entry? then Work(entries[0].node) else 0) + EntriesWork(entries[1..])
  }

  /** The walk will accept from here: `left` are unread entries of a directory at `depth`. */
  ghost predicate WillAccept(stack: seq<Pending>, left: seq<Entry>, depth: nat, bytes: nat, files: nat) {
    && CleanStack(stack)
    && Clean(left, depth)
    && bytes + StackBytes(stack) + TotalBytes(left) <= MAX_TOTAL
    && files + StackFiles(stack) + TotalFiles(left) <= MAX_FILES
  }

  lemma PushStack(stack: seq<Pending>, p: Pending)
    ensures StackBytes(stack + [p]) == StackBytes(stack) + NodeBytes(p.node)
    ensures StackFiles(stack + [p]) == StackFiles(stack) + NodeFiles(p.node)
    ensures StackWork(stack + [p]) == StackWork(stack) + Work(p.node)
    ensures CleanStack(stack + [p]) <==> CleanStack(stack) && CleanDirectory(p)
  {
    assert (stack + [p])[..|stack|] == stack;
    if CleanStack(stack + [p]) {
      assert (stack + [p])[|stack|] == p;
      forall i | 0 <= i < |stack| ensures CleanDirectory(stack[i]) {
        assert (stack + [p])[i] == stack[i];
      }
    }
  }

  /** Opening the directory on top of the stack. */
  lemma PopStack(stack: seq<Pending>, bytes: nat, files: nat)
    requires stack != []
    ensures
      var top, rest := stack[|stack| - 1], stack[..|stack| - 1];
      && StackWork(stack) == StackWork(rest) + Work(top.node)
      && (WillAccept(stack, [], 0, bytes, files) <==>
            top.node.Directory? && top.depth <= MAX_DEPTH && WillAccept(rest, top.node.entries, top.depth, bytes, files))
  {
    var top, rest := stack[|stack| - 1], stack[..|stack| - 1];
    assert rest + [top] == stack;
    PushStack(rest, top);
  }

  /** Reading one entry. */
  lemma ReadEntry(stack: seq<Pending>, left: seq<Entry>, depth: nat, bytes: nat, files: nat)
    requires left != []
    ensures
      WillAccept(stack, left, depth, bytes, files) <==>
        && CleanEntry(left[0], depth)
        && WillAccept(stack, left[1..], depth, bytes + EntryBytes(left[0]), files + EntryFiles(left[0]))
    ensures EntriesWork(left) == (if left[0].Entry? then Work(left[0].node) else 0) + EntriesWork(left[1..])
  {
  }

  /** A directory entry goes on the stack instead. */
  lemma PushDirectory(stack: seq<Pending>, entry: Entry, left: seq<Entry>, depth: nat, bytes: nat, files: nat)
    requires entry.Entry? && !IsSecret(entry.name) && (entry.node.Directory? || entry.node.UnreadableDirectory?)
    ensures
      && CleanEntry(entry, depth)
      && WillAccept(stack, left, depth, bytes + EntryBytes(entry), files + EntryFiles(entry))
      <==> WillAccept(stack + [Pending(entry.node, depth + 1)], left, depth, bytes, files)
    ensures StackWork(stack + [Pending(entry.node, depth + 1)]) == StackWork(stack) + Work(entry.node)
  {
    PushStack(stack, Pending(entry.node, depth + 1));
  }

  // ----- why a tree is refused ----------------------------------------------------------------

  /** The entry itself, so many levels below the root, is reason for that refusal. */
  predicate Flawed(entry: Entry, level: nat, refusal: Refusal) {
    match refusal
    case TooDeep => entry.Entry? && (entry.node.Directory? || entry.node.UnreadableDirectory?) && level > 64
    case Unreadable => entry.BadEntry? || entry.node.NoMetadata? || entry.node.UnreadableDirectory?
    case SecretPath => entry.Entry? && IsSecret(entry.name)
    case LinkFound => entry.Entry? && entry.node.Link?
    case MultiplyLinked => entry.Entry? && entry.node.File? && entry.node.links > 1
    case OverBudget => entry.Entry? && entry.node.File? && entry.node.length > 10_485_760
  }

  /** The root cannot be read, or the tree is too big, or an entry somewhere in it is flawed. */
  ghost predicate Justified(root: Node, refusal: Refusal) {
    || (refusal == Unreadable && !root.Directory?)
    || (refusal == OverBudget && (NodeBytes(root) > 104_857_600 || NodeFiles(root) > 10_000))
    || (root.Directory? && exists path :: FlawAt(root.entries, 0, path, refusal))
  }

  predicate FlawAt(entries: seq<Entry>, depth: nat, path: seq<nat>, refusal: Refusal) {
    EntryAt(entries, path).Some? && Flawed(EntryAt(entries, path).value, depth + |path|, refusal)
  }

  predicate HasFlaw(entries: seq<Entry>, depth: nat, refusal: Refusal) {
    entries != [] && (EntryHasFlaw(entries[0], depth, refusal) || HasFlaw(entries[1..], depth, refusal))
  }

  predicate EntryHasFlaw(entry: Entry, depth: nat, refusal: Refusal) {
    || Flawed(entry, depth + 1, refusal)
    || (entry.Entry? && entry.node.Directory? && HasFlaw(entry.node.entries, depth + 1, refusal))
  }

  predicate DirectoryHasFlaw(p: Pending, refusal: Refusal) {
    || (refusal == TooDeep && p.depth > MAX_DEPTH)
    || if p.node.Directory? then HasFlaw(p.node.entries, p.depth, refusal) else refusal == Unreadable
  }

  predicate StackHasFlaw(stack: seq<Pending>, refusal: Refusal) {
    stack != [] &&
    (DirectoryHasFlaw(stack[|stack| - 1], refusal) || StackHasFlaw(stack[..|stack| - 1], refusal))
  }

  /** From here there is reason for that refusal. */
  predicate Refusable(stack: seq<Pending>, left: seq<Entry>, depth: nat, bytes: nat, files: nat, refusal: Refusal) {
    || StackHasFlaw(stack, refusal)
    || HasFlaw(left, depth, refusal)
    || (refusal == OverBudget &&
         (bytes + StackBytes(stack) + TotalBytes(left) > MAX_TOTAL || files + StackFiles(stack) + TotalFiles(left) > MAX_FILES))
  }

  lemma PopFlaw(stack: seq<Pending>, bytes: nat, files: nat, refusal: Refusal)
    requires stack != [] && stack[|stack| - 1].node.Directory?
    ensures
      var top, rest := stack[|stack| - 1], stack[..|stack| - 1];
      Refusable(rest, top.node.entries, top.depth, bytes, files, refusal) ==> Refusable(stack, [], 0, bytes, files, refusal)
  {
  }

  lemma ReadFlaw(stack: seq<Pending>, left: seq<Entry>, depth: nat, bytes: nat, files: nat, refusal: Refusal)
    requires left != []
    ensures EntryHasFlaw(left[0], depth, refusal) ==> Refusable(stack, left, depth, bytes, files, refusal)
    ensures
      Refusable(stack, left[1..], depth, bytes + EntryBytes(left[0]), files + EntryFiles(left[0]), refusal)
      ==> Refusable(stack, left, depth, bytes, files, refusal)
  {
  }

  lemma PushFlaw(stack: seq<Pending>, left: seq<Entry>, depth: nat, bytes: nat, files: nat, refusal: Refusal)
    requires left != [] && left[0].Entry? && (left[0].node.Directory? || left[0].node.UnreadableDirectory?)
    ensures
      Refusable(stack + [Pending(left[0].node, depth + 1)], left[1..], depth, bytes, files, refusal)
      ==> Refusable(stack, left, depth, bytes, files, refusal)
  {
    var p := Pending(left[0].node, depth + 1);
    PushStack(stack, p);
    assert (stack + [p])[..|stack|] == stack && (stack + [p])[|stack|] == p;
    assert DirectoryHasFlaw(p, refusal) ==> EntryHasFlaw(left[0], depth, refusal);
  }

  lemma PopFlaws(stack: seq<Pending>, bytes: nat, files: nat)
    requires stack != [] && stack[|stack| - 1].node.Directory?
    ensures
      var top, rest := stack[|stack| - 1], stack[..|stack| - 1];
      forall x ::
        Refusable(rest, top.node.entries, top.depth, bytes, files, x) ==> Refusable(stack, [], 0, bytes, files, x)
  {
    var top, rest := stack[|stack| - 1], stack[..|stack| - 1];
    forall x | Refusable(rest, top.node.entries, top.depth, bytes, files, x)
      ensures Refusable(stack, [], 0, bytes, files, x)
    {
      PopFlaw(stack, bytes, files, x);
    }
  }

  lemma ReadFlaws(stack: seq<Pending>, left: seq<Entry>, depth: nat, bytes: nat, files: nat)
    requires left != []
    ensures forall x :: Flawed(left[0], depth + 1, x) ==> Refusable(stack, left, depth, bytes, files, x)
    ensures forall x ::
      Refusable(stack, left[1..], depth, bytes + EntryBytes(left[0]), files + EntryFiles(left[0]), x)
      ==> Refusable(stack, left, depth, bytes, files, x)
    ensures left[0].Entry? && (left[0].node.Directory? || left[0].node.UnreadableDirectory?) ==>
      forall x ::
        Refusable(stack + [Pending(left[0].node, depth + 1)], left[1..], depth, bytes, files, x)
        ==> Refusable(stack, left, depth, bytes, files, x)
  {
    forall x ensures Flawed(left[0], depth + 1, x) ==> Refusable(stack, left, depth, bytes, files, x) {
      ReadFlaw(stack, left, depth, bytes, files, x);
    }
    forall x | Refusable(stack, left[1..], depth, bytes + EntryBytes(left[0]), files + EntryFiles(left[0]), x)
      ensures Refusable(stack, left, depth, bytes, files, x)
    {
      ReadFlaw(stack, left, depth, bytes, files, x);
    }
    if left[0].Entry? && (left[0].node.Directory? || left[0].node.UnreadableDirectory?) {
      forall x | Refusable(stack + [Pending(left[0].node, depth + 1)], left[1..], depth, bytes, files, x)
        ensures Refusable(stack, left, depth, bytes, files, x)
      {
        PushFlaw(stack, left, depth, bytes, files, x);
      }
    }
  }

  lemma {:induction false} FlawHasPath(entries: seq<Entry>, depth: nat, refusal: Refusal) returns (path: seq<nat>)
    requires HasFlaw(entries, depth, refusal)
    ensures FlawAt(entries, depth, path, refusal)
    decreases entries
  {
    if Flawed(entries[0], depth + 1, refusal) {
      path := [0];
    } else if EntryHasFlaw(entries[0], depth, refusal) {
      var inner := FlawHasPath(entries[0].node.entries, depth + 1, refusal);
      path := [0] + inner;
      assert path[1..] == inner;
    } else {
      var later := FlawHasPath(entries[1..], depth, refusal);
      path := [later[0] + 1] + later[1..];
      NextEntryAt(entries, later);
    }
  }

  lemma NextEntryAt(entries: seq<Entry>, path: seq<nat>)
    requires entries != [] && path != []
    ensures EntryAt(entries, [path[0] + 1] + path[1..]) == EntryAt(entries[1..], path)
  {
    var next := [path[0] + 1] + path[1..];
    assert next[0] == path[0] + 1 && next[1..] == path[1..];
    if path[0] < |entries[1..]| {
      assert entries[1..][path[0]] == entries[next[0]];
    }
  }

  lemma OneDirectoryFlaw(p: Pending, refusal: Refusal)
    requires StackHasFlaw([p], refusal)
    ensures DirectoryHasFlaw(p, refusal)
  {
    assert [p][..0] == [] && !StackHasFlaw([p][..0], refusal);
  }

  /** To begin with there is nothing else to refuse than what the tree gives reason for. */
  lemma RefusalsJustified(root: Node)
    ensures forall x :: Refusable([Pending(root, 0)], [], 0, 0, 0, x) ==> Justified(root, x)
  {
    PushStack([], Pending(root, 0));
    var stack := [Pending(root, 0)];
    assert [] + stack == stack && stack[..0] == [] && StackBytes([]) == 0 && StackFiles([]) == 0;
    forall x | Refusable(stack, [], 0, 0, 0, x) ensures Justified(root, x) {
      if StackHasFlaw(stack, x) {
        OneDirectoryFlaw(Pending(root, 0), x);
      }
      if root.Directory? && HasFlaw(root.entries, 0, x) {
        var path := FlawHasPath(root.entries, 0, x);
      }
    }
  }

  method ValidateSnapshot(root: Node) returns (r: Result<(), Refusal>)
    ensures r.Ok? <==> Acceptable(root)
    ensures r.Err? ==> Justified(root, r.error)
  {
    var pending := [Pending(root, 0)];
    var totalBytes: nat, fileCount: nat := 0, 0;
    PushStack([], Pending(root, 0));
    assert [] + [Pending(root, 0)] == pending;
    RefusalsJustified(root);
    while pending != []
      invariant totalBytes <= MAX_TOTAL && fileCount <= MAX_FILES
      invariant Acceptable(root) <==> WillAccept(pending, [], 0, totalBytes, fileCount)
      invariant forall x :: Refusable(pending, [], 0, totalBytes, fileCount, x) ==> Justified(root, x)
      decreases StackWork(pending)
    {
      PopStack(pending, totalBytes, fileCount);
      var top := pending[|pending| - 1];
      if top.depth > MAX_DEPTH {
        return Err(TooDeep);
      }
      if !top.node.Directory? {
        return Err(Unreadable);
      }
      PopFlaws(pending, totalBytes, fileCount);
      pending := pending[..|pending| - 1];
      var refusal;
      refusal, pending, totalBytes, fileCount :=
        ReadDirectory(pending, top.node.entries, top.depth, totalBytes, fileCount);
      if refusal.Some? {
        return Err(refusal.value);
      }
    }
    r := Ok(());
  }

  /** The walk's inner loop over the entries of one directory; directories among them go on the stack. */
  method ReadDirectory(stack: seq<Pending>, entries: seq<Entry>, depth: nat, bytes: nat, files: nat)
    returns (refusal: Option<Refusal>, pending: seq<Pending>, totalBytes: nat, fileCount: nat)
    requires bytes <= MAX_TOTAL && files <= MAX_FILES
    ensures refusal.Some? ==>
      !WillAccept(stack, entries, depth, bytes, files) && Refusable(stack, entries, depth, bytes, files, refusal.value)
    ensures refusal.None? ==>
      && totalBytes <= MAX_TOTAL && fileCount <= MAX_FILES
      && (WillAccept(stack, entries, depth, bytes, files) <==> WillAccept(pending, [], 0, totalBytes, fileCount))
      && StackWork(pending) <= StackWork(stack) + EntriesWork(entries)
      && forall x :: Refusable(pending, [], 0, totalBytes, fileCount, x) ==> Refusable(stack, entries, depth, bytes, files, x)
  {
    var left := entries;
    refusal, pending, totalBytes, fileCount := None, stack, bytes, files;
    while left != []
      invariant refusal.None? && totalBytes <= MAX_TOTAL && fileCount <= MAX_FILES
      invariant WillAccept(stack, entries, depth, bytes, files) <==> WillAccept(pending, left, depth, totalBytes, fileCount)
      invariant StackWork(pending) + EntriesWork(left) <= StackWork(stack) + EntriesWork(entries)
      invariant forall x ::
        Refusable(pending, left, depth, totalBytes, fileCount, x) ==> Refusable(stack, entries, depth, bytes, files, x)
      decreases |left|
    {
      ReadEntry(pending, left, depth, totalBytes, fileCount);
      ReadFlaws(pending, left, depth, totalBytes, fileCount);
      var entry := left[0];
      left := left[1..];
      if entry.BadEntry? {
        return Some(Unreadable), pending, totalBytes, fileCount;
      }
      if IsSecret(entry.name) {
        return Some(SecretPath), pending, totalBytes, fileCount;
      }
      match entry.node {
        case NoMetadata => return Some(Unreadable), pending, totalBytes, fileCount;
        case Link => return Some(LinkFound), pending, totalBytes, fileCount;
        case Directory(_) =>
          PushDirectory(pending, entry, left, depth, totalBytes, fileCount);
          pending := pending + [Pending(entry.node, depth + 1)];
        case UnreadableDirectory =>
          PushDirectory(pending, entry, left, depth, totalBytes, fileCount);
          pending := pending + [Pending(entry.node, depth + 1)];
        case Other =>
        case File(length, links) =>
          refusal, totalBytes, fileCount := CountFile(length, links, totalBytes, fileCount);
          if refusal.Some? {
            return;
          }
      }
    }
  }

  /** A regular file: one name only, and within the budgets together with those before. */
  method CountFile(length: nat, links: nat, bytes: nat, files: nat)
    returns (refusal: Option<Refusal>, totalBytes: nat, fileCount: nat)
    requires bytes <= MAX_TOTAL && files <= MAX_FILES
    ensures refusal.None? ==>
      && links <= 1 && length <= MAX_FILE && totalBytes == bytes + length <= MAX_TOTAL && fileCount == files + 1 <= MAX_FILES
    ensures refusal.Some? ==>
      || (refusal.value == MultiplyLinked && links > 1)
      || (refusal.value == OverBudget && (length > MAX_FILE || bytes + length > MAX_TOTAL || files + 1 > MAX_FILES))
  {
    if links > 1 {
      return Some(MultiplyLinked), bytes, files;
    }
    fileCount := SaturatingAdd(files, 1);
    totalBytes := SaturatingAdd(bytes, length);
    refusal := if length > MAX_FILE || totalBytes > MAX_TOTAL || fileCount > MAX_FILES then Some(OverBudget) else None;
  }

  // ----- entry order ----------------------------------------------------------------------

  /** The same tree with the entries of any of its directories listed in another order. */
  ghost predicate Reordered(a: Node, b: Node)
    decreases a, 1
  {
    if a.Directory? then
      b.Directory? && exists middle :: |middle| == |a.entries| && Matched(a.entries, middle) && multiset(middle) == multiset(b.entries)
    else a == b
  }

  /** Position by position the same names, with reordered nodes below. */
  ghost predicate Matched(a: seq<Entry>, b: seq<Entry>)
    decreases a, 0
  {
    && |a| == |b|
    && (a == [] || (
          && (if a[0].Entry? then b[0].Entry? && b[0].name == a[0].name && Reordered(a[0].node, b[0].node) else b[0] == a[0])
          && Matched(a[1..], b[1..])))
  }

  lemma {:induction false} CleanIsForall(entries: seq<Entry>, depth: nat)
    ensures Clean(entries, depth) <==> forall i :: 0 <= i < |entries| ==> CleanEntry(entries[i], depth)
  {
    if entries != [] {
      CleanIsForall(entries[1..], depth);
      if Clean(entries, depth) {
        forall i | 0 <= i < |entries| ensures CleanEntry(entries[i], depth) {
          assert i > 0 ==> entries[i] == entries[1..][i - 1];
        }
      }
      if forall i :: 0 <= i < |entries| ==> CleanEntry(entries[i], depth) {
        assert forall i :: 0 <= i < |entries[1..]| ==> entries[1..][i] == entries[i + 1];
      }
    }
  }

  /** Totals depend on which entries there are, not on their order. */
  lemma {:induction false} TotalsOfRemoved(entries: seq<Entry>, i: nat)
    requires i < |entries|
    ensures TotalBytes(entries) == EntryBytes(entries[i]) + TotalBytes(entries[..i] + entries[i + 1..])
    ensures TotalFiles(entries) == EntryFiles(entries[i]) + TotalFiles(entries[..i] + entries[i + 1..])
  {
    if i == 0 {
      assert entries[..0] + entries[1..] == entries[1..];
    } else {
      TotalsOfRemoved(entries[1..], i - 1);
      var without := entries[..i] + entries[i + 1..];
      assert without[0] == entries[0];
      assert without[1..] == entries[1..][..i - 1] + entries[1..][i..];
    }
  }

  /** Two listings of the same entries agree after one entry is removed from both. */
  lemma RemoveFromBoth(a: seq<Entry>, b: seq<Entry>) returns (i: nat)
    requires a != [] && multiset(a) == multiset(b)
    ensures i < |b| && b[i] == a[0] && multiset(a[1..]) == multiset(b[..i] + b[i + 1..])
  {
    assert a[0] in multiset(b);
    i :| i < |b| && b[i] == a[0];
    assert b == b[..i] + [b[i]] + b[i + 1..];
    assert a == [a[0]] + a[1..];
    assert multiset(b[..i] + b[i + 1..]) == multiset(b) - multiset{b[i]};
  }

  lemma {:induction false} TotalsOfPermuted(a: seq<Entry>, b: seq<Entry>)
    requires multiset(a) == multiset(b)
    ensures TotalBytes(a) == TotalBytes(b) && TotalFiles(a) == TotalFiles(b)
  {
    if a == [] {
      assert |multiset(b)| == 0;
    } else {
      var i := RemoveFromBoth(a, b);
      TotalsOfRemoved(b, i);
      TotalsOfPermuted(a[1..], b[..i] + b[i + 1..]);
    }
  }

  lemma CleanOfPermuted(a: seq<Entry>, b: seq<Entry>, depth: nat)
    requires multiset(a) == multiset(b) && Clean(a, depth)
    ensures Clean(b, depth)
  {
    CleanIsForall(a, depth);
    forall i | 0 <= i < |b| ensures CleanEntry(b[i], depth) {
      assert b[i] in multiset(a);
    }
    CleanIsForall(b, depth);
  }

  lemma {:induction false} MatchedTotals(a: seq<Entry>, b: seq<Entry>, depth: nat)
    requires Matched(a, b)
    ensures Clean(a, depth) == Clean(b, depth)
    ensures TotalBytes(a) == TotalBytes(b) && TotalFiles(a) == TotalFiles(b)
    decreases a, 0
  {
    if a != [] {
      if a[0].Entry? && a[0].node.Directory? {
        ReorderedTotals(a[0].node, b[0].node, depth + 1);
      }
      MatchedTotals(a[1..], b[1..], depth);
    }
  }

  lemma {:induction false} ReorderedTotals(a: Node, b: Node, depth: nat)
    requires a.Directory? && Reordered(a, b)
    ensures b.Directory?
    ensures Clean(a.entries, depth) == Clean(b.entries, depth)
    ensures TotalBytes(a.entries) == TotalBytes(b.entries) && TotalFiles(a.entries) == TotalFiles(b.entries)
    decreases a, 1
  {
    var middle :| |middle| == |a.entries| && Matched(a.entries, middle) && multiset(middle) == multiset(b.entries);
    MatchedTotals(a.entries, middle, depth);
    TotalsOfPermuted(middle, b.entries);
    if Clean(middle, depth) {
      CleanOfPermuted(middle, b.entries, depth);
    }
    if Clean(b.entries, depth) {
      CleanOfPermuted(b.entries, middle, depth);
    }
  }

  /** The verdict is the same for every order in which directories list their entries. */
  lemma OrderDoesNotMatter(a: Node, b: Node)
    requires Reordered(a, b)
    ensures Acceptable(a) <==> Acceptable(b)
  {
    if a.Directory? {
      ReorderedTotals(a, b, 0);
    }
  }
}
