/**
 * The recursive folder walk `download_folder_contents`: submit the folder's
 * own files as one batch, then for each subfolder create its local directory
 * (the parent's directory joined with the sanitised folder name) and walk it.
 */
module FolderWalk {
  import opened Canvas
  import opened Sanitizer
  import opened Paths
  import opened Downloader

  /** One observable step: a directory created by `os.makedirs`, or a download submitted. */
  datatype Effect = MakeDir(path: string) | Submit(task: Task)

  function Submits(tasks: seq<Task>): (r: seq<Effect>)
    ensures |r| == |tasks| && forall k :: 0 <= k < |tasks| ==> r[k] == Submit(tasks[k])
  {
    seq(|tasks|, k requires 0 <= k < |tasks| => Submit(tasks[k]))
  }

  /** The effects of `download_folder_contents(folder, dir)`, in order. */
  function Walk(word: WordClass, folder: Folder, dir: string): seq<Effect>
    decreases folder, |folder.subfolders| + 1
  {
    if !folder.authorized then []
    else Submits(SubmittedTasks(folder.files, dir)) + WalkSubfolders(word, folder, 0, dir)
  }

  /** The effects of the loop over `folder`'s subfolders from the `i`-th on. */
  function WalkSubfolders(word: WordClass, folder: Folder, i: nat, dir: string): seq<Effect>
    requires i <= |folder.subfolders|
    decreases folder, |folder.subfolders| - i
  {
    if i == |folder.subfolders| then []
    else
      var sub := folder.subfolders[i];
      var subDir := Join(dir, Sanitize(word, sub.name));
      [MakeDir(subDir)] + Walk(word, sub, subDir) + WalkSubfolders(word, folder, i + 1, dir)
  }

  // ---------------------------------------------------------------------
  // An unauthorised subfolder does not stop its siblings
  // ---------------------------------------------------------------------

  /** What the loop over subfolders does for one subfolder: create its directory, then walk it. */
  function SubfolderEffects(word: WordClass, sub: Folder, dir: string): seq<Effect> {
    var subDir := Join(dir, Sanitize(word, sub.name));
    [MakeDir(subDir)] + Walk(word, sub, subDir)
  }

  /** The effects of the subfolders from the `i`-th up to, not including, the `j`-th. */
  function SubfoldersBetween(word: WordClass, folder: Folder, i: nat, j: nat, dir: string): seq<Effect>
    requires i <= j <= |folder.subfolders|
    decreases j - i
  {
    if i == j then []
    else SubfolderEffects(word, folder.subfolders[i], dir) + SubfoldersBetween(word, folder, i + 1, j, dir)
  }

  /** The loop splits at any subfolder: those before it, that one, those after it. */
  lemma {:induction false} WalkSubfoldersSplit(word: WordClass, folder: Folder, i: nat, j: nat, dir: string)
    requires i <= j < |folder.subfolders|
    ensures WalkSubfolders(word, folder, i, dir) ==
      SubfoldersBetween(word, folder, i, j, dir) + SubfolderEffects(word, folder.subfolders[j], dir) +
      WalkSubfolders(word, folder, j + 1, dir)
    decreases j - i
  {
    if i < j {
      WalkSubfoldersSplit(word, folder, i + 1, j, dir);
      var here := SubfolderEffects(word, folder.subfolders[i], dir);
      var between := SubfoldersBetween(word, folder, i + 1, j, dir);
      var at := SubfolderEffects(word, folder.subfolders[j], dir);
      var after := WalkSubfolders(word, folder, j + 1, dir);
      assert WalkSubfolders(word, folder, i, dir) == here + WalkSubfolders(word, folder, i + 1, dir);
      assert SubfoldersBetween(word, folder, i, j, dir) == here + between;
      Regroup4(here, between, at, after);
    }
  }

  /** The loop from the `i`-th subfolder on depends only on the subfolders from there on. */
  lemma {:induction false} WalkSubfoldersSameFrom(word: WordClass, a: Folder, b: Folder, i: nat, dir: string)
    requires |a.subfolders| == |b.subfolders| && i <= |a.subfolders|
    requires forall k :: i <= k < |a.subfolders| ==> a.subfolders[k] == b.subfolders[k]
    ensures WalkSubfolders(word, a, i, dir) == WalkSubfolders(word, b, i, dir)
    decreases |a.subfolders| - i
  {
    if i < |a.subfolders| {
      WalkSubfoldersSameFrom(word, a, b, i + 1, dir);
    }
  }

  /** The subfolders from `i` to `j` do the same in two folders that agree on them. */
  lemma {:induction false} SubfoldersBetweenSame(word: WordClass, a: Folder, b: Folder, i: nat, j: nat, dir: string)
    requires i <= j <= |a.subfolders| && j <= |b.subfolders|
    requires forall k :: i <= k < j ==> a.subfolders[k] == b.subfolders[k]
    ensures SubfoldersBetween(word, a, i, j, dir) == SubfoldersBetween(word, b, i, j, dir)
    decreases j - i
  {
    if i < j {
      SubfoldersBetweenSame(word, a, b, i + 1, j, dir);
    }
  }

  /** `folder` with listing the files of its `j`-th subfolder raising `Unauthorized`. */
  function Block(folder: Folder, j: nat): Folder
    requires j < |folder.subfolders|
  {
    folder.(subfolders := folder.subfolders[j := folder.subfolders[j].(authorized := false)])
  }

  /**
   * The siblings of a subfolder are listed before it is walked, and its
   * `Unauthorized` is caught inside its own walk: blocking the `j`-th
   * subfolder removes exactly that subfolder's walk, and keeps its directory
   * and every sibling's effects, in the same order.
   */
  lemma BlockedSubfolderSkipsOnlyItself(word: WordClass, folder: Folder, j: nat, dir: string)
    requires folder.authorized && j < |folder.subfolders|
    ensures
      var sub := folder.subfolders[j];
      var subDir := Join(dir, Sanitize(word, sub.name));
      var before := Submits(SubmittedTasks(folder.files, dir)) + SubfoldersBetween(word, folder, 0, j, dir);
      var after := WalkSubfolders(word, folder, j + 1, dir);
      Walk(word, folder, dir) == before + [MakeDir(subDir)] + Walk(word, sub, subDir) + after &&
      Walk(word, Block(folder, j), dir) == before + [MakeDir(subDir)] + after
  {
    var sub := folder.subfolders[j];
    var subDir := Join(dir, Sanitize(word, sub.name));
    var files := Submits(SubmittedTasks(folder.files, dir));
    var between := SubfoldersBetween(word, folder, 0, j, dir);
    var after := WalkSubfolders(word, folder, j + 1, dir);
    WalkSubfoldersSplit(word, folder, 0, j, dir);
    Regroup(files, between, [MakeDir(subDir)], Walk(word, sub, subDir), after);
    assert Walk(word, folder, dir) == files + WalkSubfolders(word, folder, 0, dir);
    BlockedWalk(word, folder, j, dir);
    Regroup4(files, between, [MakeDir(subDir)], after);
  }

  lemma BlockedWalk(word: WordClass, folder: Folder, j: nat, dir: string)
    requires folder.authorized && j < |folder.subfolders|
    ensures Walk(word, Block(folder, j), dir) ==
      Submits(SubmittedTasks(folder.files, dir)) +
      (SubfoldersBetween(word, folder, 0, j, dir) +
       [MakeDir(Join(dir, Sanitize(word, folder.subfolders[j].name)))] +
       WalkSubfolders(word, folder, j + 1, dir))
  {
    var blocked := Block(folder, j);
    var subDir := Join(dir, Sanitize(word, folder.subfolders[j].name));
    assert blocked.subfolders[j].name == folder.subfolders[j].name;
    assert !blocked.subfolders[j].authorized;
    assert SubfolderEffects(word, blocked.subfolders[j], dir) == [MakeDir(subDir)] + [];
    assert [MakeDir(subDir)] + [] == [MakeDir(subDir)];
    WalkSubfoldersSplit(word, blocked, 0, j, dir);
    SubfoldersBetweenSame(word, blocked, folder, 0, j, dir);
    WalkSubfoldersSameFrom(word, blocked, folder, j + 1, dir);
  }

  /** Regrouping a four-part concatenation. */
  lemma Regroup4(a: seq<Effect>, b: seq<Effect>, c: seq<Effect>, e: seq<Effect>)
    ensures a + (b + c + e) == a + b + c + e
  {
  }

  /** Regrouping a five-part concatenation. */
  lemma Regroup(a: seq<Effect>, b: seq<Effect>, c: seq<Effect>, d: seq<Effect>, e: seq<Effect>)
    ensures a + (b + (c + d) + e) == a + b + c + d + e
  {
  }

  // ---------------------------------------------------------------------
  // The remote tree as the walk sees it, and where each part lands locally
  // ---------------------------------------------------------------------

  /** A remote folder or file, with the names of the folders leading to it from the walk's root. */
  datatype Remote = FolderAt(path: seq<string>) | FileAt(path: seq<string>, file: File)

  function Under(name: string, item: Remote): Remote {
    match item
    case FolderAt(p) => FolderAt([name] + p)
    case FileAt(p, f) => FileAt([name] + p, f)
  }

  function UnderAll(name: string, items: seq<Remote>): (r: seq<Remote>)
    ensures |r| == |items| && forall k :: 0 <= k < |items| ==> r[k] == Under(name, items[k])
  {
    seq(|items|, k requires 0 <= k < |items| => Under(name, items[k]))
  }

  function FilesHere(files: seq<File>): (r: seq<Remote>)
    ensures |r| == |files| && forall k :: 0 <= k < |files| ==> r[k] == FileAt([], files[k])
  {
    seq(|files|, k requires 0 <= k < |files| => FileAt([], files[k]))
  }

  /**
   * The folders and files reachable from `folder` in pre-order, each with its
   * remote path; an unauthorised folder shows nothing of its contents.
   */
  function Listing(folder: Folder): seq<Remote>
    decreases folder, |folder.subfolders| + 1
  {
    if !folder.authorized then []
    else FilesHere(folder.files) + ListingSubfolders(folder, 0)
  }

  function ListingSubfolders(folder: Folder, i: nat): seq<Remote>
    requires i <= |folder.subfolders|
    decreases folder, |folder.subfolders| - i
  {
    if i == |folder.subfolders| then []
    else
      var sub := folder.subfolders[i];
      [FolderAt([sub.name])] + UnderAll(sub.name, Listing(sub)) + ListingSubfolders(folder, i + 1)
  }

  function SanitizeAll(word: WordClass, names: seq<string>): (r: seq<string>)
    ensures |r| == |names| && forall k :: 0 <= k < |names| ==> r[k] == Sanitize(word, names[k])
  {
    seq(|names|, k requires 0 <= k < |names| => Sanitize(word, names[k]))
  }

  /** The local directory of a remote folder path, below the walk's local root `dir`. */
  function LocalDir(word: WordClass, dir: string, path: seq<string>): string {
    JoinAll(dir, SanitizeAll(word, path))
  }

  /** What the walk does for one remote item, placed by its path. */
  function LocalizeOne(word: WordClass, item: Remote, dir: string): seq<Effect> {
    match item
    case FolderAt(p) => [MakeDir(LocalDir(word, dir, p))]
    case FileAt(p, f) => if f.url == "" then [] else [Submit(TaskFor(f, LocalDir(word, dir, p)))]
  }

  function Localize(word: WordClass, items: seq<Remote>, dir: string): seq<Effect>
    decreases |items|
  {
    if items == [] then [] else LocalizeOne(word, items[0], dir) + Localize(word, items[1..], dir)
  }

  lemma {:induction false} LocalizeAppend(word: WordClass, a: seq<Remote>, b: seq<Remote>, dir: string)
    ensures Localize(word, a + b, dir) == Localize(word, a, dir) + Localize(word, b, dir)
    decreases |a|
  {
    if a != [] {
      assert (a + b)[0] == a[0] && (a + b)[1..] == a[1..] + b;
      LocalizeAppend(word, a[1..], b, dir);
    } else {
      assert a + b == b;
    }
  }

  lemma {:induction false} LocalizeFilesHere(word: WordClass, files: seq<File>, dir: string)
    ensures Localize(word, FilesHere(files), dir) == Submits(SubmittedTasks(files, dir))
    decreases |files|
  {
    if files != [] {
      var init, last := files[..|files| - 1], files[|files| - 1];
      LocalizeFilesHere(word, init, dir);
      assert FilesHere(files) == FilesHere(init) + [FileAt([], last)];
      LocalizeAppend(word, FilesHere(init), [FileAt([], last)], dir);
      assert SanitizeAll(word, []) == [];
      var tail := if last.url == "" then [] else [TaskFor(last, dir)];
      assert Localize(word, [FileAt([], last)], dir) == Submits(tail);
      assert Submits(SubmittedTasks(init, dir) + tail) == Submits(SubmittedTasks(init, dir)) + Submits(tail);
    }
  }

  lemma {:induction false} LocalizeUnder(word: WordClass, name: string, items: seq<Remote>, dir: string)
    ensures Localize(word, UnderAll(name, items), dir) == Localize(word, items, Join(dir, Sanitize(word, name)))
    decreases |items|
  {
    if items != [] {
      var p := items[0].path;
      assert SanitizeAll(word, [name] + p) == [Sanitize(word, name)] + SanitizeAll(word, p);
      assert ([Sanitize(word, name)] + SanitizeAll(word, p))[1..] == SanitizeAll(word, p);
      assert LocalDir(word, dir, [name] + p) == LocalDir(word, Join(dir, Sanitize(word, name)), p);
      assert UnderAll(name, items)[1..] == UnderAll(name, items[1..]);
      LocalizeUnder(word, name, items[1..], dir);
    }
  }

  /**
   * The walk mirrors the remote tree: it creates exactly the directories and
   * submits exactly the downloads that the listing gives, each placed at the
   * local directory of its remote path, in the same order.
   */
  lemma {:induction false} WalkMirrorsTree(word: WordClass, folder: Folder, dir: string)
    ensures Walk(word, folder, dir) == Localize(word, Listing(folder), dir)
    decreases folder, |folder.subfolders| + 1
  {
    if folder.authorized {
      LocalizeAppend(word, FilesHere(folder.files), ListingSubfolders(folder, 0), dir);
      LocalizeFilesHere(word, folder.files, dir);
      WalkSubfoldersMirror(word, folder, 0, dir);
    }
  }

  lemma {:induction false} WalkSubfoldersMirror(word: WordClass, folder: Folder, i: nat, dir: string)
    requires i <= |folder.subfolders|
    ensures WalkSubfolders(word, folder, i, dir) == Localize(word, ListingSubfolders(folder, i), dir)
    decreases folder, |folder.subfolders| - i
  {
    if i < |folder.subfolders| {
      var sub := folder.subfolders[i];
      var subDir := Join(dir, Sanitize(word, sub.name));
      var head: seq<Remote> := [FolderAt([sub.name])];
      var below := UnderAll(sub.name, Listing(sub));
      var rest := ListingSubfolders(folder, i + 1);
      assert ListingSubfolders(folder, i) == head + (below + rest);
      LocalizeAppend(word, head, below + rest, dir);
      LocalizeAppend(word, below, rest, dir);
      assert SanitizeAll(word, [sub.name]) == [Sanitize(word, sub.name)];
      assert [Sanitize(word, sub.name)][1..] == [];
      calc {
        LocalDir(word, dir, [sub.name]);
        JoinAll(dir, [Sanitize(word, sub.name)]);
        JoinAll(subDir, []);
        subDir;
      }
      assert head[1..] == [];
      assert Localize(word, head, dir) == [MakeDir(subDir)];
      LocalizeUnder(word, sub.name, Listing(sub), dir);
      WalkMirrorsTree(word, sub, subDir);
      WalkSubfoldersMirror(word, folder, i + 1, dir);
    }
  }

  /**
   * Depth for depth: the local directory of a remote path is the walk's root
   * followed by one sanitised component per remote folder name.
   */
  lemma LocalDirDepth(word: WordClass, dir: string, path: seq<string>)
    requires IsProperDir(dir)
    requires forall k :: 0 <= k < |path| ==> path[k] != []
    ensures Components(LocalDir(word, dir, path)) == Components(dir) + SanitizeAll(word, path)
    ensures |Components(LocalDir(word, dir, path))| == |Components(dir)| + |path|
  {
    var names := SanitizeAll(word, path);
    forall k | 0 <= k < |names| ensures names[k] != [] && NoSeparator(names[k]) {
      SanitizedAllowed(word, path[k]);
    }
    JoinAllAddsComponents(dir, names);
  }

  // ---------------------------------------------------------------------
  // Every download targets a directory that already exists
  // ---------------------------------------------------------------------

  /** The directories created by a sequence of effects. */
  function MadeDirs(effects: seq<Effect>): set<string>
    decreases |effects|
  {
    if effects == [] then {}
    else (if effects[0].MakeDir? then {effects[0].path} else {}) + MadeDirs(effects[1..])
  }

  lemma {:induction false} MadeDirsAppend(a: seq<Effect>, b: seq<Effect>)
    ensures MadeDirs(a + b) == MadeDirs(a) + MadeDirs(b)
    decreases |a|
  {
    if a == [] {
      assert a + b == b;
    } else {
      assert (a + b)[0] == a[0] && (a + b)[1..] == a[1..] + b;
      MadeDirsAppend(a[1..], b);
    }
  }

  lemma {:induction false} MadeDirsSubmits(tasks: seq<Task>)
    ensures MadeDirs(Submits(tasks)) == {}
    decreases |tasks|
  {
    if tasks != [] {
      assert Submits(tasks)[1..] == Submits(tasks[1..]);
      MadeDirsSubmits(tasks[1..]);
    }
  }

  /**
   * Every download of `effects` goes to a directory that exists when it is
   * submitted, given that the directories in `have` exist beforehand.
   */
  predicate DirsReady(effects: seq<Effect>, have: set<string>)
    decreases |effects|
  {
    effects == [] ||
    match effects[0]
    case MakeDir(p) => DirsReady(effects[1..], have + {p})
    case Submit(t) => t.dir in have && DirsReady(effects[1..], have)
  }

  lemma {:induction false} DirsReadyGrow(effects: seq<Effect>, have: set<string>, more: set<string>)
    requires DirsReady(effects, have) && have <= more
    ensures DirsReady(effects, more)
    decreases |effects|
  {
    if effects != [] {
      match effects[0]
      case MakeDir(p) => DirsReadyGrow(effects[1..], have + {p}, more + {p});
      case Submit(t) => DirsReadyGrow(effects[1..], have, more);
    }
  }

  lemma {:induction false} DirsReadyAppend(a: seq<Effect>, b: seq<Effect>, have: set<string>)
    requires DirsReady(a, have) && DirsReady(b, have + MadeDirs(a))
    ensures DirsReady(a + b, have)
    ensures MadeDirs(a + b) == MadeDirs(a) + MadeDirs(b)
    decreases |a|
  {
    if a == [] {
      assert a + b == b;
      assert have + MadeDirs(a) == have;
    } else {
      assert (a + b)[0] == a[0] && (a + b)[1..] == a[1..] + b;
      match a[0]
      case MakeDir(p) =>
        assert have + {p} + MadeDirs(a[1..]) == have + MadeDirs(a);
        DirsReadyAppend(a[1..], b, have + {p});
      case Submit(t) =>
        assert MadeDirs(a) == MadeDirs(a[1..]);
        DirsReadyAppend(a[1..], b, have);
    }
  }

  lemma {:induction false} SubmitsReady(tasks: seq<Task>, dir: string, have: set<string>)
    requires dir in have
    requires forall k :: 0 <= k < |tasks| ==> tasks[k].dir == dir
    ensures DirsReady(Submits(tasks), have) && MadeDirs(Submits(tasks)) == {}
    decreases |tasks|
  {
    if tasks != [] {
      assert Submits(tasks)[1..] == Submits(tasks[1..]);
      SubmitsReady(tasks[1..], dir, have);
    }
  }

  /**
   * `os.makedirs` for a subfolder runs before its walk, so when the walk's own
   * directory exists, every download it submits goes into an existing directory.
   */
  lemma {:induction false} WalkDirsReady(word: WordClass, folder: Folder, dir: string, have: set<string>)
    requires dir in have
    ensures DirsReady(Walk(word, folder, dir), have)
    decreases folder, |folder.subfolders| + 1
  {
    if folder.authorized {
      var tasks := SubmittedTasks(folder.files, dir);
      SubmittedHaveUrls(folder.files, dir);
      SubmitsReady(tasks, dir, have);
      WalkSubfoldersReady(word, folder, 0, dir, have);
      assert have + MadeDirs(Submits(tasks)) == have;
      DirsReadyAppend(Submits(tasks), WalkSubfolders(word, folder, 0, dir), have);
    }
  }

  lemma {:induction false} WalkSubfoldersReady(word: WordClass, folder: Folder, i: nat, dir: string, have: set<string>)
    requires i <= |folder.subfolders| && dir in have
    ensures DirsReady(WalkSubfolders(word, folder, i, dir), have)
    decreases folder, |folder.subfolders| - i
  {
    if i < |folder.subfolders| {
      var sub := folder.subfolders[i];
      var subDir := Join(dir, Sanitize(word, sub.name));
      var make := [MakeDir(subDir)];
      var inner := Walk(word, sub, subDir);
      var rest := WalkSubfolders(word, folder, i + 1, dir);
      assert MadeDirs(make) == {subDir};
      assert DirsReady(make, have);
      WalkDirsReady(word, sub, subDir, have + {subDir});
      DirsReadyAppend(make, inner, have);
      WalkSubfoldersReady(word, folder, i + 1, dir, have);
      DirsReadyGrow(rest, have, have + MadeDirs(make + inner));
      DirsReadyAppend(make + inner, rest, have);
    }
  }

  // ---------------------------------------------------------------------
  // Everything the walk touches lies below its local root
  // ---------------------------------------------------------------------

  /** The local directory an effect touches: the one created, or the one downloaded into. */
  function EffectDir(e: Effect): string {
    match e
    case MakeDir(p) => p
    case Submit(t) => t.dir
  }

  /** Every effect touches `dir` or a path that extends it. */
  predicate AllBelow(effects: seq<Effect>, dir: string) {
    forall k :: 0 <= k < |effects| ==> dir <= EffectDir(effects[k])
  }

  lemma AllBelowAppend(a: seq<Effect>, b: seq<Effect>, dir: string)
    requires AllBelow(a, dir) && AllBelow(b, dir)
    ensures AllBelow(a + b, dir)
  {
    forall k | 0 <= k < |a + b| ensures dir <= EffectDir((a + b)[k]) {
      if k >= |a| { assert (a + b)[k] == b[k - |a|]; }
    }
  }

  lemma AllBelowWeaken(effects: seq<Effect>, inner: string, dir: string)
    requires AllBelow(effects, inner) && dir <= inner
    ensures AllBelow(effects, dir)
  {
    forall k | 0 <= k < |effects| ensures dir <= EffectDir(effects[k]) {
      var p := EffectDir(effects[k]);
      assert p[..|dir|] == inner[..|dir|];
    }
  }

  /** A sanitised name joined onto a directory extends it: the name cannot start with '/'. */
  lemma JoinSanitizedExtends(word: WordClass, dir: string, name: string)
    ensures dir <= Join(dir, Sanitize(word, name))
  {
    SanitizedAllowed(word, name);
    var s := Sanitize(word, name);
    assert |s| > 0 ==> s[0] in s;
  }

  /**
   * The walk never leaves its local root: every directory it creates and
   * every directory it downloads into extends `dir`.
   */
  lemma {:induction false} WalkStaysBelow(word: WordClass, folder: Folder, dir: string)
    ensures AllBelow(Walk(word, folder, dir), dir)
    decreases folder, |folder.subfolders| + 1
  {
    if folder.authorized {
      SubmittedHaveUrls(folder.files, dir);
      WalkSubfoldersStayBelow(word, folder, 0, dir);
      AllBelowAppend(Submits(SubmittedTasks(folder.files, dir)), WalkSubfolders(word, folder, 0, dir), dir);
    }
  }

  lemma {:induction false} WalkSubfoldersStayBelow(word: WordClass, folder: Folder, i: nat, dir: string)
    requires i <= |folder.subfolders|
    ensures AllBelow(WalkSubfolders(word, folder, i, dir), dir)
    decreases folder, |folder.subfolders| - i
  {
    if i < |folder.subfolders| {
      var sub := folder.subfolders[i];
      var subDir := Join(dir, Sanitize(word, sub.name));
      JoinSanitizedExtends(word, dir, sub.name);
      WalkStaysBelow(word, sub, subDir);
      AllBelowWeaken(Walk(word, sub, subDir), subDir, dir);
      WalkSubfoldersStayBelow(word, folder, i + 1, dir);
      AllBelowAppend([MakeDir(subDir)], Walk(word, sub, subDir), dir);
      AllBelowAppend([MakeDir(subDir)] + Walk(word, sub, subDir), WalkSubfolders(word, folder, i + 1, dir), dir);
    }
  }
}
