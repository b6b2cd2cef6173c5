/**
 * The course processor `download_course_files` and the top-level run over
 * all enrolled courses: skip a course whose sanitised directory already
 * exists, otherwise create it, walk the folder whose full name is
 * "course files", and download the file items of every module into one
 * directory per module.
 */
module CourseDownload {
  import opened Canvas
  import opened Sanitizer
  import opened Paths
  import opened Downloader
  import opened FolderWalk

  /** The directory every course directory is created in. */
  const DownloadRoot: string := "canvas_downloads"

  /** The full name of the folder the file walk starts from. */
  const CourseFilesName: string := "course files"

  /** The kind of module item that refers to a file. */
  const FileKind: string := "File"

  function CourseDir(word: WordClass, name: string): string {
    Join(DownloadRoot, Sanitize(word, name))
  }

  function ModuleDir(word: WordClass, courseDir: string, m: Module): string {
    Join(courseDir, Sanitize(word, m.name))
  }

  /**
   * `next(f for f in folders if f.full_name == "course files")`: the position
   * of the first folder with that full name, or `None` when iteration runs out.
   */
  function RootFolderIndex(folders: seq<Folder>): (r: Option<nat>)
    ensures r.Some? ==> r.value < |folders| && folders[r.value].fullName == CourseFilesName
    ensures r.Some? ==> forall j :: 0 <= j < r.value ==> folders[j].fullName != CourseFilesName
    ensures r.None? <==> forall j :: 0 <= j < |folders| ==> folders[j].fullName != CourseFilesName
  {
    if folders == [] then None
    else if folders[0].fullName == CourseFilesName then Some(0)
    else
      match RootFolderIndex(folders[1..])
      case None => None
      case Some(i) => Some(i + 1)
  }

  /** The first try block of the course: the walk from the "course files" folder, if any. */
  function FolderPass(word: WordClass, course: Course, courseDir: string): seq<Effect> {
    match course.folders
    case None => []
    case Some(folders) =>
      match RootFolderIndex(folders)
      case None => []
      case Some(i) => Walk(word, folders[i], courseDir)
  }

  /**
   * One module item: a "File" item whose id resolves to a file with a URL is
   * downloaded as a one-file batch; any other item does nothing (an unknown id
   * is the logged "file not found", an empty URL the logged "no URL").
   */
  predicate DownloadsItem(item: ModuleItem, catalog: map<int, File>) {
    item.kind == FileKind && item.contentId in catalog && catalog[item.contentId].url != ""
  }

  function ItemEffect(item: ModuleItem, catalog: map<int, File>, moduleDir: string): seq<Effect> {
    if DownloadsItem(item, catalog) then
      Submits(SubmittedTasks([catalog[item.contentId]], moduleDir))
    else []
  }

  function ItemEffects(items: seq<ModuleItem>, catalog: map<int, File>, moduleDir: string): seq<Effect>
    decreases |items|
  {
    if items == [] then []
    else ItemEffects(items[..|items| - 1], catalog, moduleDir) + ItemEffect(items[|items| - 1], catalog, moduleDir)
  }

  /** One module: its directory is created, then its items are processed if they can be listed. */
  function ModuleEffect(word: WordClass, m: Module, catalog: map<int, File>, courseDir: string): seq<Effect> {
    var moduleDir := ModuleDir(word, courseDir, m);
    [MakeDir(moduleDir)] +
    match m.items
    case None => []
    case Some(items) => ItemEffects(items, catalog, moduleDir)
  }

  /** What each module does, one entry per module, in order. */
  function ModuleParts(word: WordClass, modules: seq<Module>, catalog: map<int, File>, courseDir: string): (r: seq<seq<Effect>>)
    ensures |r| == |modules| && forall k :: 0 <= k < |modules| ==> r[k] == ModuleEffect(word, modules[k], catalog, courseDir)
  {
    seq(|modules|, k requires 0 <= k < |modules| => ModuleEffect(word, modules[k], catalog, courseDir))
  }

  /** The loop over a course's modules: each module's effects, one module after the other. */
  function ModuleEffects(word: WordClass, modules: seq<Module>, catalog: map<int, File>, courseDir: string): seq<Effect> {
    Concat(ModuleParts(word, modules, catalog, courseDir))
  }

  lemma ModuleEffectsSnoc(word: WordClass, modules: seq<Module>, j: nat, catalog: map<int, File>, courseDir: string)
    requires j < |modules|
    ensures ModuleEffects(word, modules[..j + 1], catalog, courseDir) ==
            ModuleEffects(word, modules[..j], catalog, courseDir) + ModuleEffect(word, modules[j], catalog, courseDir)
  {
    var parts := ModuleParts(word, modules[..j], catalog, courseDir);
    var one := ModuleEffect(word, modules[j], catalog, courseDir);
    assert ModuleParts(word, modules[..j + 1], catalog, courseDir) == parts + [one];
    ConcatSnoc(parts, one);
  }

  /** The second try block of the course: the module pass, if the modules can be listed. */
  function ModulePass(word: WordClass, course: Course, catalog: map<int, File>, courseDir: string): seq<Effect> {
    match course.modules
    case None => []
    case Some(modules) => ModuleEffects(word, modules, catalog, courseDir)
  }

  /** Everything a course that is not skipped does, in order. */
  function CourseEffects(word: WordClass, course: Course, catalog: map<int, File>): seq<Effect> {
    var courseDir := CourseDir(word, course.name);
    [MakeDir(courseDir)] + FolderPass(word, course, courseDir) + ModulePass(word, course, catalog, courseDir)
  }

  /**
   * The local disk as the script sees it: the paths that existed before the
   * run, and the effects of the run so far, in order.
   */
  datatype Disk = Disk(existing: set<string>, log: seq<Effect>) {
    /** `os.path.exists(path)`: there beforehand, or created since. */
    predicate Exists(path: string) {
      path in existing || path in MadeDirs(log)
    }
  }

  datatype Outcome = NotFound | Skipped | Processed

  /**
   * `download_course_files`: a course that cannot be resolved does nothing, a
   * course whose directory exists is skipped, any other is processed.
   */
  function CourseStep(word: WordClass, disk: Disk, lookup: Option<Course>, catalog: map<int, File>): (Outcome, Disk) {
    match lookup
    case None => (NotFound, disk)
    case Some(course) =>
      if disk.Exists(CourseDir(word, course.name)) then (Skipped, disk)
      else (Processed, disk.(log := disk.log + CourseEffects(word, course, catalog)))
  }

  /** The run over all courses in the given order, with each course's outcome. */
  function Run(word: WordClass, disk: Disk, lookups: seq<Option<Course>>, catalog: map<int, File>): (Disk, seq<Outcome>)
    decreases |lookups|
  {
    if lookups == [] then (disk, [])
    else
      var (before, outcomes) := Run(word, disk, lookups[..|lookups| - 1], catalog);
      var (outcome, after) := CourseStep(word, before, lookups[|lookups| - 1], catalog);
      (after, outcomes + [outcome])
  }

  function Reversed<T>(s: seq<T>): seq<T>
  {
    seq(|s|, k requires 0 <= k < |s| => s[|s| - 1 - k])
  }

  /** The script's entry point: create the download root if missing, then process the courses newest first. */
  function DownloadAllSpec(word: WordClass, disk: Disk, lookups: seq<Option<Course>>, catalog: map<int, File>): (Disk, seq<Outcome>) {
    var start := if disk.Exists(DownloadRoot) then disk else disk.(log := disk.log + [MakeDir(DownloadRoot)]);
    Run(word, start, Reversed(lookups), catalog)
  }

  /** Regrouping a concatenation; kept separate so the methods' proofs stay small. */
  lemma Associate3(a: seq<Effect>, b: seq<Effect>, c: seq<Effect>)
    ensures a + b + c == a + (b + c)
  {
  }

  lemma Associate(a: seq<Effect>, b: seq<Effect>, c: seq<Effect>, d: seq<Effect>)
    ensures a + b + c + d == a + (b + c + d)
  {
  }

  // ---------------------------------------------------------------------
  // What the module pass downloads, and where
  // ---------------------------------------------------------------------

  /**
   * The items of a module submit exactly one download per "File" item whose
   * id resolves to a file with a URL, that file into the module's directory,
   * and do nothing else.
   */
  lemma {:induction false} ItemEffectsExactly(items: seq<ModuleItem>, catalog: map<int, File>, moduleDir: string, e: Effect)
    ensures e in ItemEffects(items, catalog, moduleDir) <==>
      exists k :: 0 <= k < |items| && DownloadsItem(items[k], catalog) &&
        e == Submit(TaskFor(catalog[items[k].contentId], moduleDir))
    decreases |items|
  {
    if items != [] {
      var n := |items| - 1;
      var init, item := items[..n], items[n];
      ItemEffectsExactly(init, catalog, moduleDir, e);
      if DownloadsItem(item, catalog) {
        SingleSubmitted(catalog[item.contentId], moduleDir);
      }
      if e in ItemEffects(items, catalog, moduleDir) {
        if e in ItemEffects(init, catalog, moduleDir) {
          var k :| 0 <= k < n && DownloadsItem(init[k], catalog) && e == Submit(TaskFor(catalog[init[k].contentId], moduleDir));
          assert items[k] == init[k];
        } else {
          assert DownloadsItem(items[n], catalog) && e == Submit(TaskFor(catalog[items[n].contentId], moduleDir));
        }
      }
      if exists k :: 0 <= k < |items| && DownloadsItem(items[k], catalog) && e == Submit(TaskFor(catalog[items[k].contentId], moduleDir)) {
        var k :| 0 <= k < |items| && DownloadsItem(items[k], catalog) && e == Submit(TaskFor(catalog[items[k].contentId], moduleDir));
        assert ItemEffects(items, catalog, moduleDir) == ItemEffects(init, catalog, moduleDir) + ItemEffect(item, catalog, moduleDir);
        if k < n {
          assert init[k] == items[k];
          assert DownloadsItem(init[k], catalog) && e == Submit(TaskFor(catalog[init[k].contentId], moduleDir));
        } else {
          assert k == n && items[k] == item;
          assert ItemEffect(item, catalog, moduleDir)[0] == e;
        }
      }
    }
  }

  /** A module's directory is its course directory with one more component, the sanitised module name. */
  lemma ModuleDirDepth(word: WordClass, courseDir: string, m: Module)
    requires IsProperDir(courseDir)
    ensures Components(ModuleDir(word, courseDir, m)) == Components(courseDir) + [Sanitize(word, m.name)]
  {
    SanitizedAllowed(word, m.name);
    JoinAddsComponent(courseDir, Sanitize(word, m.name));
  }

  /** One module creates exactly one directory, its own. */
  lemma ModuleEffectDirs(word: WordClass, m: Module, catalog: map<int, File>, courseDir: string, p: string)
    ensures MakeDir(p) in ModuleEffect(word, m, catalog, courseDir) <==> p == ModuleDir(word, courseDir, m)
  {
    var moduleDir := ModuleDir(word, courseDir, m);
    if m.items.Some? {
      ItemEffectsExactly(m.items.value, catalog, moduleDir, MakeDir(p));
      assert ModuleEffect(word, m, catalog, courseDir) == [MakeDir(moduleDir)] + ItemEffects(m.items.value, catalog, moduleDir);
    } else {
      assert ModuleEffect(word, m, catalog, courseDir) == [MakeDir(moduleDir)];
    }
  }

  /** The module pass creates the directory of every module. */
  lemma ModuleDirMade(word: WordClass, modules: seq<Module>, catalog: map<int, File>, courseDir: string, k: nat)
    requires k < |modules|
    ensures MakeDir(ModuleDir(word, courseDir, modules[k])) in ModuleEffects(word, modules, catalog, courseDir)
  {
    var parts := ModuleParts(word, modules, catalog, courseDir);
    ModuleEffectDirs(word, modules[k], catalog, courseDir, ModuleDir(word, courseDir, modules[k]));
    ConcatIncludes(parts, k, MakeDir(ModuleDir(word, courseDir, modules[k])));
  }

  /** The module pass creates no directory other than those of its modules. */
  lemma ModuleEffectsDirs(word: WordClass, modules: seq<Module>, catalog: map<int, File>, courseDir: string, p: string)
    requires MakeDir(p) in ModuleEffects(word, modules, catalog, courseDir)
    ensures exists k :: 0 <= k < |modules| && p == ModuleDir(word, courseDir, modules[k])
  {
    var parts := ModuleParts(word, modules, catalog, courseDir);
    ConcatMember(parts, MakeDir(p));
    var k :| 0 <= k < |parts| && MakeDir(p) in parts[k];
    ModuleEffectDirs(word, modules[k], catalog, courseDir, p);
  }

  // ---------------------------------------------------------------------
  // A processed course writes only below its own directory
  // ---------------------------------------------------------------------

  lemma {:induction false} ItemEffectsStayBelow(items: seq<ModuleItem>, catalog: map<int, File>, moduleDir: string)
    ensures AllBelow(ItemEffects(items, catalog, moduleDir), moduleDir)
    decreases |items|
  {
    if items != [] {
      var item := items[|items| - 1];
      ItemEffectsStayBelow(items[..|items| - 1], catalog, moduleDir);
      if DownloadsItem(item, catalog) {
        SingleSubmitted(catalog[item.contentId], moduleDir);
      }
      AllBelowAppend(ItemEffects(items[..|items| - 1], catalog, moduleDir), ItemEffect(item, catalog, moduleDir), moduleDir);
    }
  }

  lemma ModuleEffectStaysBelow(word: WordClass, m: Module, catalog: map<int, File>, courseDir: string)
    ensures AllBelow(ModuleEffect(word, m, catalog, courseDir), courseDir)
  {
    var moduleDir := ModuleDir(word, courseDir, m);
    JoinSanitizedExtends(word, courseDir, m.name);
    if m.items.Some? {
      ItemEffectsStayBelow(m.items.value, catalog, moduleDir);
      AllBelowWeaken(ItemEffects(m.items.value, catalog, moduleDir), moduleDir, courseDir);
      AllBelowAppend([MakeDir(moduleDir)], ItemEffects(m.items.value, catalog, moduleDir), courseDir);
    }
  }

  lemma {:induction false} ConcatStaysBelow(parts: seq<seq<Effect>>, dir: string)
    requires forall k :: 0 <= k < |parts| ==> AllBelow(parts[k], dir)
    ensures AllBelow(Concat(parts), dir)
    decreases |parts|
  {
    if parts != [] {
      var n := |parts| - 1;
      assert forall k :: 0 <= k < n ==> parts[..n][k] == parts[k];
      ConcatStaysBelow(parts[..n], dir);
      AllBelowAppend(Concat(parts[..n]), parts[n], dir);
    }
  }

  lemma ModuleEffectsStayBelow(word: WordClass, modules: seq<Module>, catalog: map<int, File>, courseDir: string)
    ensures AllBelow(ModuleEffects(word, modules, catalog, courseDir), courseDir)
  {
    var parts := ModuleParts(word, modules, catalog, courseDir);
    forall k | 0 <= k < |parts| ensures AllBelow(parts[k], courseDir) {
      ModuleEffectStaysBelow(word, modules[k], catalog, courseDir);
    }
    ConcatStaysBelow(parts, courseDir);
  }

  /**
   * Everything a processed course does, the folder walk and the module pass,
   * creates or downloads into its course directory or a directory below it.
   */
  lemma CourseStaysBelow(word: WordClass, course: Course, catalog: map<int, File>)
    ensures AllBelow(CourseEffects(word, course, catalog), CourseDir(word, course.name))
  {
    var courseDir := CourseDir(word, course.name);
    if course.folders.Some? && RootFolderIndex(course.folders.value).Some? {
      WalkStaysBelow(word, course.folders.value[RootFolderIndex(course.folders.value).value], courseDir);
    }
    if course.modules.Some? {
      ModuleEffectsStayBelow(word, course.modules.value, catalog, courseDir);
    }
    AllBelowAppend([MakeDir(courseDir)], FolderPass(word, course, courseDir), courseDir);
    AllBelowAppend([MakeDir(courseDir)] + FolderPass(word, course, courseDir), ModulePass(word, course, catalog, courseDir), courseDir);
  }

  // ---------------------------------------------------------------------
  // The skip rule: a course is processed at most once
  // ---------------------------------------------------------------------

  /** `disk` is `before` with more effects appended and nothing else changed. */
  predicate Extends(disk: Disk, before: Disk) {
    disk.existing == before.existing && before.log <= disk.log
  }

  /** Paths never stop existing: the script creates directories and removes none. */
  lemma ExistsPersists(before: Disk, disk: Disk, path: string)
    requires Extends(disk, before) && before.Exists(path)
    ensures disk.Exists(path)
  {
    var rest := disk.log[|before.log|..];
    assert disk.log == before.log + rest;
    MadeDirsAppend(before.log, rest);
  }

  /**
   * One course step: a course that cannot be resolved, or whose directory
   * exists, leaves the disk as it was; otherwise the course directory is
   * created first, so afterwards it exists.
   */
  lemma CourseStepEffect(word: WordClass, disk: Disk, lookup: Option<Course>, catalog: map<int, File>)
    ensures CourseStep(word, disk, lookup, catalog).0 == Skipped <==>
      lookup.Some? && disk.Exists(CourseDir(word, lookup.value.name))
    ensures CourseStep(word, disk, lookup, catalog).0 != Processed ==> CourseStep(word, disk, lookup, catalog).1 == disk
    ensures Extends(CourseStep(word, disk, lookup, catalog).1, disk)
    ensures lookup.Some? ==> CourseStep(word, disk, lookup, catalog).1.Exists(CourseDir(word, lookup.value.name))
  {
    if lookup.Some? {
      var course := lookup.value;
      var dir := CourseDir(word, course.name);
      if !disk.Exists(dir) {
        var effects := CourseEffects(word, course, catalog);
        MadeDirsAppend(disk.log, effects);
        MadeDirsAppend([MakeDir(dir)], effects[1..]);
        assert effects == [MakeDir(dir)] + effects[1..];
      }
    }
  }

  /** After a run, the directory of every course that could be resolved exists. */
  lemma {:induction false} RunCreatesCourseDirs(word: WordClass, disk: Disk, lookups: seq<Option<Course>>, catalog: map<int, File>)
    ensures Extends(Run(word, disk, lookups, catalog).0, disk)
    ensures |Run(word, disk, lookups, catalog).1| == |lookups|
    ensures forall k :: 0 <= k < |lookups| && lookups[k].Some? ==>
      Run(word, disk, lookups, catalog).0.Exists(CourseDir(word, lookups[k].value.name))
    decreases |lookups|
  {
    if lookups != [] {
      var n := |lookups| - 1;
      var init := lookups[..n];
      RunCreatesCourseDirs(word, disk, init, catalog);
      var before := Run(word, disk, init, catalog).0;
      CourseStepEffect(word, before, lookups[n], catalog);
      var after := CourseStep(word, before, lookups[n], catalog).1;
      forall k | 0 <= k < |lookups| && lookups[k].Some?
        ensures after.Exists(CourseDir(word, lookups[k].value.name))
      {
        if k < n {
          assert init[k] == lookups[k];
          ExistsPersists(before, after, CourseDir(word, lookups[k].value.name));
        }
      }
    }
  }

  /** A run over courses whose directories all exist already creates and downloads nothing. */
  lemma {:induction false} RunOverExistingIsNoop(word: WordClass, disk: Disk, lookups: seq<Option<Course>>, catalog: map<int, File>)
    requires forall k :: 0 <= k < |lookups| && lookups[k].Some? ==> disk.Exists(CourseDir(word, lookups[k].value.name))
    ensures Run(word, disk, lookups, catalog).0 == disk
    ensures forall k :: 0 <= k < |Run(word, disk, lookups, catalog).1| ==> Run(word, disk, lookups, catalog).1[k] != Processed
    decreases |lookups|
  {
    if lookups != [] {
      var n := |lookups| - 1;
      var init := lookups[..n];
      assert forall k :: 0 <= k < n ==> init[k] == lookups[k];
      RunOverExistingIsNoop(word, disk, init, catalog);
      CourseStepEffect(word, disk, lookups[n], catalog);
    }
  }

  /**
   * Running the script a second time over the same courses changes nothing:
   * every course resolved in the first run is skipped, because only the
   * existence of its top-level directory is checked.
   */
  lemma RerunIsNoop(word: WordClass, disk: Disk, lookups: seq<Option<Course>>, catalog: map<int, File>)
    ensures Run(word, Run(word, disk, lookups, catalog).0, lookups, catalog).0 == Run(word, disk, lookups, catalog).0
  {
    RunCreatesCourseDirs(word, disk, lookups, catalog);
    RunOverExistingIsNoop(word, Run(word, disk, lookups, catalog).0, lookups, catalog);
  }

  /**
   * Running the whole script a second time changes nothing: the download root
   * exists after the first run, and so does the directory of every course it
   * resolved.
   */
  lemma DownloadAllRerunIsNoop(word: WordClass, disk: Disk, lookups: seq<Option<Course>>, catalog: map<int, File>)
    ensures DownloadAllSpec(word, DownloadAllSpec(word, disk, lookups, catalog).0, lookups, catalog).0 ==
            DownloadAllSpec(word, disk, lookups, catalog).0
  {
    var start := if disk.Exists(DownloadRoot) then disk else disk.(log := disk.log + [MakeDir(DownloadRoot)]);
    if !disk.Exists(DownloadRoot) {
      MadeDirsAppend(disk.log, [MakeDir(DownloadRoot)]);
    }
    assert start.Exists(DownloadRoot);
    var order := Reversed(lookups);
    var first := Run(word, start, order, catalog).0;
    RunCreatesCourseDirs(word, start, order, catalog);
    ExistsPersists(start, first, DownloadRoot);
    RerunIsNoop(word, start, order, catalog);
  }

  /** The local disk and the record of what the script did to it. */
  class Workspace {
    const existing: set<string>
    var log: seq<Effect>

    function State(): Disk
      reads this
    {
      Disk(existing, log)
    }

    constructor (existing: set<string>)
      ensures State() == Disk(existing, [])
    {
      this.existing := existing;
      log := [];
    }

    /** `os.makedirs(path, exist_ok=True)`. */
    method MakeDirs(path: string)
      modifies this
      ensures log == old(log) + [MakeDir(path)]
    {
      log := log + [MakeDir(path)];
    }

    /** `process_files(files, dir)`: the batch's tasks are submitted. */
    method ProcessBatch(files: seq<File>, dir: string)
      modifies this
      ensures log == old(log) + Submits(SubmittedTasks(files, dir))
    {
      var tasks, skipped := ProcessFiles(files, dir);
      log := log + Submits(tasks);
    }

    /** `download_folder_contents(folder, dir)`. */
    method DownloadFolderContents(word: WordClass, folder: Folder, dir: string)
      modifies this
      ensures log == old(log) + Walk(word, folder, dir)
      decreases folder
    {
      if !folder.authorized {
        return;
      }
      ProcessBatch(folder.files, dir);
      ghost var files, subs := Submits(SubmittedTasks(folder.files, dir)), WalkSubfolders(word, folder, 0, dir);
      assert Walk(word, folder, dir) == files + subs;
      assert log + subs == old(log) + (files + subs);
      var i := 0;
      while i < |folder.subfolders|
        invariant 0 <= i <= |folder.subfolders|
        invariant log + WalkSubfolders(word, folder, i, dir) == old(log) + Walk(word, folder, dir)
      {
        var sub := folder.subfolders[i];
        var subDir := Join(dir, Sanitize(word, sub.name));
        ghost var before, rest := log, WalkSubfolders(word, folder, i + 1, dir);
        MakeDirs(subDir);
        DownloadFolderContents(word, sub, subDir);
        ghost var step, inner := [MakeDir(subDir)], Walk(word, sub, subDir);
        assert WalkSubfolders(word, folder, i, dir) == step + inner + rest;
        Associate(before, step, inner, rest);
        i := i + 1;
      }
    }

    /** `download_course_files(course_id)`, the course having been looked up as `lookup`. */
    method DownloadCourseFiles(word: WordClass, lookup: Option<Course>, catalog: map<int, File>) returns (outcome: Outcome)
      modifies this
      ensures (outcome, State()) == CourseStep(word, old(State()), lookup, catalog)
    {
      if lookup.None? {
        return NotFound;
      }
      var course := lookup.value;
      var courseDir := CourseDir(word, course.name);
      if courseDir in existing || courseDir in MadeDirs(log) {
        return Skipped;
      }
      ghost var make := [MakeDir(courseDir)];
      ghost var folders := FolderPass(word, course, courseDir);
      ghost var modules := ModulePass(word, course, catalog, courseDir);
      MakeDirs(courseDir);
      ProcessCourseFolders(word, course, courseDir);
      ProcessCourseModules(word, course, catalog, courseDir);
      Associate(old(log), make, folders, modules);
      return Processed;
    }

    /** The course's first try block: the walk from the "course files" folder, if there is one. */
    method ProcessCourseFolders(word: WordClass, course: Course, courseDir: string)
      modifies this
      ensures log == old(log) + FolderPass(word, course, courseDir)
    {
      if course.folders.Some? {
        var index := RootFolderIndex(course.folders.value);
        if index.Some? {
          DownloadFolderContents(word, course.folders.value[index.value], courseDir);
          return;
        }
      }
      assert log == old(log) + [];
    }

    /** The course's second try block: the modules, if they can be listed. */
    method ProcessCourseModules(word: WordClass, course: Course, catalog: map<int, File>, courseDir: string)
      modifies this
      ensures log == old(log) + ModulePass(word, course, catalog, courseDir)
    {
      if course.modules.Some? {
        ProcessModules(word, course.modules.value, catalog, courseDir);
      } else {
        assert log == old(log) + [];
      }
    }

    /** The loop over a course's modules. */
    method ProcessModules(word: WordClass, modules: seq<Module>, catalog: map<int, File>, courseDir: string)
      modifies this
      ensures log == old(log) + ModuleEffects(word, modules, catalog, courseDir)
    {
      var j := 0;
      assert modules[..0] == [];
      assert log == old(log) + [];
      while j < |modules|
        invariant 0 <= j <= |modules|
        invariant log == old(log) + ModuleEffects(word, modules[..j], catalog, courseDir)
      {
        ghost var done := ModuleEffects(word, modules[..j], catalog, courseDir);
        ghost var one := ModuleEffect(word, modules[j], catalog, courseDir);
        ProcessModule(word, modules[j], catalog, courseDir);
        ModuleEffectsSnoc(word, modules, j, catalog, courseDir);
        Associate3(old(log), done, one);
        j := j + 1;
      }
      assert modules[..j] == modules;
    }

    /** One module: its directory, then its items if they can be listed. */
    method ProcessModule(word: WordClass, m: Module, catalog: map<int, File>, courseDir: string)
      modifies this
      ensures log == old(log) + ModuleEffect(word, m, catalog, courseDir)
    {
      var moduleDir := ModuleDir(word, courseDir, m);
      ghost var items := match m.items case None => [] case Some(items) => ItemEffects(items, catalog, moduleDir);
      MakeDirs(moduleDir);
      if m.items.Some? {
        ProcessItems(m.items.value, catalog, moduleDir);
      } else {
        assert log == old(log) + [MakeDir(moduleDir)] + items;
      }
      assert ModuleEffect(word, m, catalog, courseDir) == [MakeDir(moduleDir)] + items;
      Associate3(old(log), [MakeDir(moduleDir)], items);
    }

    /** The loop over a module's items. */
    method ProcessItems(items: seq<ModuleItem>, catalog: map<int, File>, moduleDir: string)
      modifies this
      ensures log == old(log) + ItemEffects(items, catalog, moduleDir)
    {
      var k := 0;
      assert items[..0] == [];
      assert log == old(log) + [];
      while k < |items|
        invariant 0 <= k <= |items|
        invariant log == old(log) + ItemEffects(items[..k], catalog, moduleDir)
      {
        var item := items[k];
        assert items[..k + 1][..k] == items[..k];
        if item.kind == FileKind && item.contentId in catalog {
          var file := catalog[item.contentId];
          if file.url != "" {
            ProcessBatch([file], moduleDir);
          }
        }
        k := k + 1;
      }
      assert items[..k] == items;
    }

    /** The `__main__` block: the download root, then every course, newest first. */
    method DownloadAll(word: WordClass, lookups: seq<Option<Course>>, catalog: map<int, File>) returns (outcomes: seq<Outcome>)
      modifies this
      ensures (State(), outcomes) == DownloadAllSpec(word, old(State()), lookups, catalog)
    {
      if DownloadRoot !in existing && DownloadRoot !in MadeDirs(log) {
        MakeDirs(DownloadRoot);
      }
      ghost var start := State();
      var order := Reversed(lookups);
      outcomes := [];
      var i := 0;
      while i < |order|
        invariant 0 <= i <= |order|
        invariant (State(), outcomes) == Run(word, start, order[..i], catalog)
      {
        assert order[..i + 1][..i] == order[..i];
        var outcome := DownloadCourseFiles(word, order[i], catalog);
        outcomes := outcomes + [outcome];
        i := i + 1;
      }
      assert order[..i] == order;
    }
  }
}
