/**
 * The per-batch downloader: `process_files`, which hands every file that has
 * a URL to the thread pool and skips the others, and `download_file`, which
 * rejects a URL not starting with "http" and otherwise streams the body to
 * the destination path chunk by chunk.
 */
module Downloader {
  import opened Canvas
  import opened Sanitizer
  import opened Paths

  type Bytes = seq<bv8>

  /** A download handed to the thread pool: the arguments of `download_file`. */
  datatype Task = Task(url: string, displayName: string, dir: string)

  /** The task `process_files` submits for one file of the batch. */
  function TaskFor(file: File, dir: string): Task {
    Task(file.url, file.displayName, dir)
  }

  /** The tasks of a batch, in submission order. */
  function SubmittedTasks(files: seq<File>, dir: string): seq<Task>
    decreases |files|
  {
    if files == [] then []
    else
      var last := files[|files| - 1];
      SubmittedTasks(files[..|files| - 1], dir) + (if last.url == "" then [] else [TaskFor(last, dir)])
  }

  /** The files of a batch that are logged as having no URL, in order. */
  function SkippedFiles(files: seq<File>): seq<File>
    decreases |files|
  {
    if files == [] then []
    else
      var last := files[|files| - 1];
      SkippedFiles(files[..|files| - 1]) + (if last.url == "" then [last] else [])
  }

  /**
   * `process_files(files, folder_dir)`: the loop that submits one task per
   * file with a URL and logs a skip for each file without one.
   */
  method ProcessFiles(files: seq<File>, dir: string) returns (tasks: seq<Task>, skipped: seq<File>)
    ensures tasks == SubmittedTasks(files, dir)
    ensures skipped == SkippedFiles(files)
  {
    tasks, skipped := [], [];
    var i := 0;
    while i < |files|
      invariant 0 <= i <= |files|
      invariant tasks == SubmittedTasks(files[..i], dir)
      invariant skipped == SkippedFiles(files[..i])
    {
      var file := files[i];
      assert files[..i + 1][..i] == files[..i];
      if file.url == "" {
        skipped := skipped + [file];
      } else {
        tasks := tasks + [TaskFor(file, dir)];
      }
      i := i + 1;
    }
    assert files[..i] == files;
  }

  /** Every submitted task has a URL and targets the batch's directory. */
  lemma {:induction false} SubmittedHaveUrls(files: seq<File>, dir: string)
    ensures forall k :: 0 <= k < |SubmittedTasks(files, dir)| ==>
      SubmittedTasks(files, dir)[k].url != "" && SubmittedTasks(files, dir)[k].dir == dir
    decreases |files|
  {
    if files != [] {
      SubmittedHaveUrls(files[..|files| - 1], dir);
    }
  }

  /** Every file counts once: M files with N lacking a URL give M - N tasks and N skips. */
  lemma {:induction false} SubmittedCount(files: seq<File>, dir: string)
    ensures |SubmittedTasks(files, dir)| + |SkippedFiles(files)| == |files|
    decreases |files|
  {
    if files != [] {
      SubmittedCount(files[..|files| - 1], dir);
    }
  }

  /** A file's task is submitted exactly when the file is in the batch and has a URL. */
  lemma {:induction false} SubmittedExactly(files: seq<File>, dir: string, file: File)
    ensures TaskFor(file, dir) in SubmittedTasks(files, dir) <==> file in files && file.url != ""
    decreases |files|
  {
    if files != [] {
      var init := files[..|files| - 1];
      SubmittedExactly(init, dir, file);
      assert files == init + [files[|files| - 1]];
    }
  }

  /** A file is skipped exactly when it is in the batch and has no URL. */
  lemma {:induction false} SkippedExactly(files: seq<File>, file: File)
    ensures file in SkippedFiles(files) <==> file in files && file.url == ""
    decreases |files|
  {
    if files != [] {
      var init := files[..|files| - 1];
      SkippedExactly(init, file);
      assert files == init + [files[|files| - 1]];
    }
  }

  /**
   * Submission keeps the input order: the tasks of a batch split into the
   * tasks of its first part followed by those of the rest.
   */
  lemma {:induction false} SubmittedInOrder(a: seq<File>, b: seq<File>, dir: string)
    ensures SubmittedTasks(a + b, dir) == SubmittedTasks(a, dir) + SubmittedTasks(b, dir)
    decreases |b|
  {
    if b == [] {
      assert a + b == a;
    } else {
      var init := b[..|b| - 1];
      SubmittedInOrder(a, init, dir);
      assert (a + b)[..|a + b| - 1] == a + init;
    }
  }

  /** A one-file batch whose file has a URL submits exactly that file. */
  lemma SingleSubmitted(file: File, dir: string)
    requires file.url != ""
    ensures SubmittedTasks([file], dir) == [TaskFor(file, dir)]
  {
    assert [file][..0] == [];
  }

  const UrlScheme: string := "http"

  predicate StartsWith(s: string, prefix: string) {
    |prefix| <= |s| && s[..|prefix|] == prefix
  }

  /** What the HTTP GET yields: a failure before any byte, or a body in chunks. */
  datatype Response =
    | GetFailed
    | Body(chunks: seq<Bytes>, interrupted: bool)

  /**
   * The outcome of `download_file`: the URL was rejected before any write,
   * the request failed before the file was opened, or the file at `dest` was
   * written with `content` (all of the body, or what arrived before the stream
   * broke), the progress bar having advanced by `progress` bytes.
   */
  datatype Download =
    | InvalidUrl
    | RequestFailed
    | Saved(dest: string, content: Bytes, progress: nat, complete: bool)

  /** Where `download_file` writes a task's body, if it accepts the URL. */
  function Destination(word: WordClass, task: Task): Option<string> {
    if StartsWith(task.url, UrlScheme) then Some(Join(task.dir, Sanitize(word, task.displayName)))
    else None
  }

  /** The bytes of a sequence of chunks, in order. */
  function Concat<T>(chunks: seq<seq<T>>): seq<T>
    decreases |chunks|
  {
    if chunks == [] then [] else Concat(chunks[..|chunks| - 1]) + chunks[|chunks| - 1]
  }

  lemma ConcatSnoc<T>(chunks: seq<seq<T>>, chunk: seq<T>)
    ensures Concat(chunks + [chunk]) == Concat(chunks) + chunk
  {
    assert (chunks + [chunk])[..|chunks|] == chunks;
  }

  /** Every element of every chunk is in the concatenation. */
  lemma {:induction false} ConcatIncludes<T>(chunks: seq<seq<T>>, k: nat, x: T)
    requires k < |chunks| && x in chunks[k]
    ensures x in Concat(chunks)
    decreases |chunks|
  {
    var n := |chunks| - 1;
    if k < n {
      assert chunks[..n][k] == chunks[k];
      ConcatIncludes(chunks[..n], k, x);
    }
  }

  /** Every element of the concatenation comes from some chunk. */
  lemma {:induction false} ConcatMember<T>(chunks: seq<seq<T>>, x: T)
    requires x in Concat(chunks)
    ensures exists k :: 0 <= k < |chunks| && x in chunks[k]
    decreases |chunks|
  {
    var n := |chunks| - 1;
    if x in Concat(chunks[..n]) {
      ConcatMember(chunks[..n], x);
      var k :| 0 <= k < n && x in chunks[..n][k];
      assert chunks[..n][k] == chunks[k];
    } else {
      assert x in chunks[n];
    }
  }

  /**
   * `download_file(url, name, folder_dir, pbar)`: nothing is written for a URL
   * not starting with "http"; otherwise every non-empty chunk is appended to
   * the destination file and counted on the progress bar.
   */
  method DownloadFile(word: WordClass, task: Task, response: Response) returns (d: Download)
    ensures d.InvalidUrl? <==> !StartsWith(task.url, UrlScheme)
    ensures d.RequestFailed? <==> StartsWith(task.url, UrlScheme) && response.GetFailed?
    ensures d.Saved? ==> Destination(word, task) == Some(d.dest) && response.Body?
    ensures d.Saved? ==> d.content == Concat(response.chunks) && d.progress == |d.content|
    ensures d.Saved? ==> d.complete == !response.interrupted
  {
    if !StartsWith(task.url, UrlScheme) {
      return InvalidUrl;
    }
    var dest := Join(task.dir, Sanitize(word, task.displayName));
    if response.GetFailed? {
      return RequestFailed;
    }
    var chunks := response.chunks;
    var content: Bytes := [];
    var progress: nat := 0;
    var i := 0;
    while i < |chunks|
      invariant 0 <= i <= |chunks|
      invariant content == Concat(chunks[..i])
      invariant progress == |content|
    {
      var chunk := chunks[i];
      assert chunks[..i + 1][..i] == chunks[..i];
      if chunk != [] {
        content := content + chunk;
        progress := progress + |chunk|;
      }
      i := i + 1;
    }
    assert chunks[..i] == chunks;
    d := Saved(dest, content, progress, !response.interrupted);
  }

  /**
   * An accepted download lands one level below its task's directory, under
   * the sanitised display name.
   */
  lemma DestinationDepth(word: WordClass, task: Task)
    requires StartsWith(task.url, UrlScheme) && IsProperDir(task.dir)
    ensures Destination(word, task).Some?
    ensures Components(Destination(word, task).value) == Components(task.dir) + [Sanitize(word, task.displayName)]
  {
    SanitizedAllowed(word, task.displayName);
    JoinAddsComponent(task.dir, Sanitize(word, task.displayName));
  }
}
