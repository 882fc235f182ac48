/**
 * The backend entities the picker navigates. The backends themselves
 * (browser storage, Dropbox, GitHub Gist) are opaque: only the identity of
 * a handle is modelled, and every result a backend would produce is passed
 * in by the caller.
 */
module Api {

  /** A leaf entry: readable and writable. */
  datatype FileRef = FileRef(name: string, path: string)

  /** A location: listable, and a place where files can be created. */
  datatype FolderRef = FolderRef(name: string, path: string)

  /** What a folder listing yields; the picker dispatches on the tag only. */
  datatype Entry = File(file: FileRef) | Folder(folder: FolderRef)
}
