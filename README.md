# canvas_bulk_download in Dafny

This project models the core of `canvas_bulk_download.py`. The script downloads
every file of every enrolled course from a Canvas learning-management system into
`canvas_downloads/<course>/…`. The model covers the parts of that script that are
logic rather than plumbing:

- the file-name sanitiser `sanitize_filename` (module `Sanitizer`);
- `os.path.join` on POSIX, and splitting a path into its `/`-separated components
  (module `Paths`);
- the batch loop `process_files` and the single download `download_file`
  (module `Downloader`);
- the recursive folder walk `download_folder_contents` (module `FolderWalk`);
- the course processor `download_course_files` and the `__main__` loop over the
  courses (module `CourseDownload`).

The Canvas objects (courses, folders, files, modules, module items) are plain
values in module `Canvas`. A listing that raises is an absent one (`None`). A
folder whose file listing raises `Unauthorized` has `authorized == false`.

What the script does to the disk is recorded as a sequence of effects. An effect
is either `MakeDir(path)` (an `os.makedirs`) or `Submit(task)` (a download handed
to the thread pool). Pure functions (`Walk`, `CourseEffects`, `Run`) say which
effects happen, and in what order. The class `CourseDownload.Workspace` holds the
disk: the paths that existed before the run, plus the log of effects. Its methods
mirror the source's loops and recursion, and each is proved to append exactly
what the matching function says. `os.path.exists` is modelled by `Disk.Exists`:
the exact path string existed beforehand, or the run has created it since. Paths
are strings throughout, with no normalisation of `.`, `..` or trailing `/`.

Python's `\w` is not fixed to a Unicode table. Every sanitising member takes a
`word: WordClass` parameter. This can be any character class that contains the
ASCII letters, the digits and `_`, and does not contain `/`.

## Model

| member | source | states |
|---|---|---|
| Sanitizer.SanitizeChar | canvas_bulk_download.py:30 | the substituted character is always allowed, and it equals the input character exactly when that character is allowed |
| Sanitizer.SanitizeReplaces | canvas_bulk_download.py:30 | position by position, an allowed character is kept and every other character becomes `_` |
| Sanitizer.Sanitize | canvas_bulk_download.py:29-30 | the result has the input's length, and position i is the substitution of input character i only |
| Sanitizer.SanitizedAllowed | canvas_bulk_download.py:30 | every character of a sanitised name is a word character, `-`, `_`, `.` or space; it never contains `/` |
| Sanitizer.SanitizeFixedPoint | canvas_bulk_download.py:30 | a name is returned unchanged if and only if all its characters are allowed |
| Sanitizer.SanitizeIdempotent | canvas_bulk_download.py:30 | sanitising twice equals sanitising once |
| Sanitizer.AsciiWordKept | canvas_bulk_download.py:30 | ASCII letters, digits and `_` are kept in place, whatever the exact `\w` table |
| Sanitizer.DotNamesKept | canvas_bulk_download.py:30 | the names `.` and `..` are made of allowed characters and come out unchanged |
| Paths.UnsplitComponents | canvas_bulk_download.py:86 | splitting a path into components and gluing them back gives the path |
| Paths.JoinAddsComponent | canvas_bulk_download.py:86 | joining a separator-free name onto a directory adds exactly that one component |
| Paths.JoinAllAddsComponents | canvas_bulk_download.py:85-88 | joining a run of names level by level adds them as components, one per level, in order |
| Downloader.ProcessFiles | canvas_bulk_download.py:55-74 | the loop submits the tasks of `SubmittedTasks` and logs the skips of `SkippedFiles`, in input order |
| Downloader.SubmittedHaveUrls | canvas_bulk_download.py:58-74 | every submitted task has a non-empty URL and targets the batch's directory |
| Downloader.SubmittedCount | canvas_bulk_download.py:58-61 | of M files with N lacking a URL, exactly M-N are submitted and N skipped |
| Downloader.SubmittedExactly | canvas_bulk_download.py:58-74 | a file's task is submitted if and only if the file is in the batch and has a URL |
| Downloader.SkippedExactly | canvas_bulk_download.py:58-61 | a file is skipped if and only if it is in the batch and has no URL |
| Downloader.SubmittedInOrder | canvas_bulk_download.py:58-74 | submission keeps the input order: the tasks of a + b are those of a followed by those of b |
| Downloader.SingleSubmitted | canvas_bulk_download.py:134-135 | a one-file batch whose file has a URL submits exactly that file |
| Downloader.DownloadFile | canvas_bulk_download.py:33-52 | a URL not starting with "http" is rejected before anything is written; otherwise a failed GET writes nothing, and a body is written to the folder joined with the sanitised name as the concatenation of its chunks, with progress equal to the bytes written |
| Downloader.DestinationDepth | canvas_bulk_download.py:39 | an accepted download lands exactly one component below its directory, under the sanitised display name |
| FolderWalk.WalkMirrorsTree | canvas_bulk_download.py:80-88 | the walk creates exactly the folders and submits exactly the files with URLs of the remote tree, in pre-order, each at the local directory of its remote path |
| FolderWalk.WalkSubfoldersMirror | canvas_bulk_download.py:85-88 | the loop over subfolders creates each subfolder's directory, then walks it, for each subfolder in order |
| FolderWalk.LocalDirDepth | canvas_bulk_download.py:85-88 | a remote folder at depth d has its local directory d components below the walk's root, one sanitised name per level |
| FolderWalk.WalkDirsReady | canvas_bulk_download.py:82-88 | each subfolder's directory is created before its walk, so every download goes into a directory that already exists |
| FolderWalk.WalkStaysBelow | canvas_bulk_download.py:80-88 | every directory path the walk creates or downloads into extends the walk's root path as a string |
| FolderWalk.WalkSubfoldersSplit | canvas_bulk_download.py:85-88 | the subfolder loop splits at any subfolder into the effects of the subfolders before it, that subfolder's directory and walk, and the subfolders after it |
| FolderWalk.BlockedSubfolderSkipsOnlyItself | canvas_bulk_download.py:84-90 | when listing one subfolder's files raises `Unauthorized`, the walk loses exactly that subfolder's walk; its directory and every sibling's effects stay, in the same order |
| CourseDownload.RootFolderIndex | canvas_bulk_download.py:112-115 | the folder walked is the first one whose full name is exactly "course files"; there is none if and only if no folder has that name |
| CourseDownload.ItemEffectsExactly | canvas_bulk_download.py:128-135 | a module's items submit a download if and only if it is the file of a "File" item whose id resolves to a file with a URL, into the module directory; they create no directory |
| CourseDownload.ModuleDirDepth | canvas_bulk_download.py:125-126 | a module's directory is its course directory plus one component, the sanitised module name |
| CourseDownload.ModuleDirMade | canvas_bulk_download.py:124-127 | the module pass creates the directory of every module of the course |
| CourseDownload.ModuleEffectsDirs | canvas_bulk_download.py:124-127 | every directory the module pass creates is the directory of one of the course's modules |
| CourseDownload.CourseStaysBelow | canvas_bulk_download.py:109-161 | every directory path a processed course creates or downloads into extends its course directory path as a string |
| CourseDownload.CourseStepEffect | canvas_bulk_download.py:95-109 | a course is skipped if and only if its sanitised directory path is among the existing or created paths, compared as exact strings; a skipped or unresolved course changes nothing; afterwards the course directory exists |
| CourseDownload.RunCreatesCourseDirs | canvas_bulk_download.py:171-180 | after a run, the directory of every resolved course exists, and the run has only added effects |
| CourseDownload.RunOverExistingIsNoop | canvas_bulk_download.py:101-107 | a run over courses whose directories all exist processes none of them and changes nothing |
| CourseDownload.RerunIsNoop | canvas_bulk_download.py:101-107 | running the course loop again over the same courses changes nothing |
| CourseDownload.DownloadAllRerunIsNoop | canvas_bulk_download.py:171-180 | running the whole script a second time, root creation included, changes nothing |
| CourseDownload.Workspace.MakeDirs | canvas_bulk_download.py:87 | `os.makedirs` records the creation of exactly that directory |
| CourseDownload.Workspace.ProcessBatch | canvas_bulk_download.py:55-77 | a batch appends the submissions of exactly its files with URLs, in order |
| CourseDownload.Workspace.DownloadFolderContents | canvas_bulk_download.py:80-90 | the recursive walk appends exactly the effects of `Walk` |
| CourseDownload.Workspace.DownloadCourseFiles | canvas_bulk_download.py:93-168 | the course processor changes the disk exactly as `CourseStep` says |
| CourseDownload.Workspace.ProcessCourseFolders | canvas_bulk_download.py:111-120 | the folder pass walks the first "course files" folder into the course directory, or does nothing when there is none or listing fails |
| CourseDownload.Workspace.ProcessCourseModules | canvas_bulk_download.py:122-161 | the module try block processes every module when the modules can be listed, and does nothing when listing them fails |
| CourseDownload.Workspace.ProcessModule | canvas_bulk_download.py:125-155 | one module: its directory is created, then its items are processed when they can be listed; a failed item listing adds nothing more |
| CourseDownload.Workspace.ProcessModules | canvas_bulk_download.py:122-127 | the module loop creates one directory per module, in order, and processes its items |
| CourseDownload.Workspace.ProcessItems | canvas_bulk_download.py:128-145 | each "File" item whose file resolves and has a URL is downloaded into the module directory; all other items do nothing |
| CourseDownload.Workspace.DownloadAll | canvas_bulk_download.py:171-180 | the main block creates `canvas_downloads` if missing, then processes the courses in reverse enumeration order |

## Left out

- HTTP traffic is not modelled. The GET's result is a parameter (`Response`). The
  HEAD request that sizes the progress bar, `raise_for_status` and the
  `content-length` header are left out.
- The thread pool (`ThreadPoolExecutor` with `MAX_THREADS = 2`) and the wait on the
  futures are not modelled. A submitted download is a `Submit` effect. The bound of
  two concurrent downloads is therefore not stated.
- Downloader.DownloadFile: the task runs on a worker thread after submission, so its
  written file is not placed in the effect log.
- The `canvasapi` client is not modelled. This covers `get_course`, `get_courses`,
  `get_folders`, `get_files`, `get_modules`, `get_module_items` and `get_file`. Their
  results are given values: a course lookup is an `Option<Course>`, and `get_file`
  is a map from content id to file, where a missing id is the logged
  `ResourceDoesNotExist`.
- Exceptions are modelled only where the folder, module and course structure shows
  them. These are an unauthorised file listing, a folder or module listing that
  fails, and a course that cannot be resolved. Several failures are not modelled:
  a failure raised lazily in the middle of a paginated listing, an `Unauthorized`
  from `get_folders` after the folder's files were submitted, and an exception
  from `requests.head` or `get_file` that ends the rest of the enclosing loop.
- CourseDownload.CourseStaysBelow: paths are compared as strings, not as resolved
  locations. A folder or module named `.` or `..` keeps that name (`DotNamesKept`), so on
  disk its directory aliases the course directory or lies above it. The same holds
  for `FolderWalk.WalkStaysBelow`.
- FolderWalk.LocalDirDepth: depth for depth holds only for non-empty folder names. An
  empty name joins as a trailing `/` and adds no level on disk, and `.` and `..`
  names add a component that does not go one level down.
- CourseDownload.CourseStepEffect: existence is checked on exact strings. A course
  directory that names an existing path only after normalisation is not seen as
  existing. Examples are `canvas_downloads/` for an empty course name, and the
  aliases from courses named `.` or `..`. The script would skip such a course; the
  model processes it.
- The exact Unicode table behind `\w` is not modelled. See `WordClass` above.
- File-system semantics are not modelled. `os.path.exists` consults only the paths
  that existed before the run and the directories the run created. Downloaded
  files, and failures of `os.makedirs`, are not modelled.
- A file's missing URL (`None` or empty in Python) is modelled as the empty string.
- Colour logging (`colorama`) and progress bars (`tqdm`) are not modelled. The
  progress bar appears only as the byte count in `DownloadFile`.
