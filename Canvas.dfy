/**
 * The learning-management-system objects the script reads. They come from a
 * foreign, paginated API client; here they are plain values, and a listing
 * that raises is an absent one (`None`).
 */
module Canvas {

  datatype Option<+T> = None | Some(value: T)

  /** A downloadable file: its display name and its download URL ("" when it has none). */
  datatype File = File(displayName: string, url: string)

  /**
   * A folder of the course's file tree. `authorized` is false when listing
   * its files raises an authorisation failure, which ends the walk of that
   * folder before anything in it is read.
   */
  datatype Folder = Folder(
    name: string,
    fullName: string,
    authorized: bool,
    files: seq<File>,
    subfolders: seq<Folder>)

  /** An entry of a module; only entries of kind "File" refer to a file, by id. */
  datatype ModuleItem = ModuleItem(kind: string, contentId: int)

  /** A module; `items` is `None` when listing its entries fails. */
  datatype Module = Module(name: string, items: Option<seq<ModuleItem>>)

  /** A course; `folders` and `modules` are `None` when the listing fails. */
  datatype Course = Course(
    name: string,
    folders: Option<seq<Folder>>,
    modules: Option<seq<Module>>)
}
