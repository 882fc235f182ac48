# File picker controller

A Dafny model of the navigation and selection controller of the file
picker in `src/components/FilePicker.tsx` (class `FilePicker`). The picker
lets a user browse the folders of a storage backend (browser storage,
Dropbox, GitHub Gist) and either open a file or save content to an
existing or a new file.

The model has five modules:

- `Wrappers`: `Option`, standing for the source's `T | null`.
- `Api`: the backend handles. `FileRef` and `FolderRef` are identities (name and path).
  `Entry = File(FileRef) | Folder(FolderRef)` replaces the `instanceof` dispatch.
- `JsArray`: `Array.prototype.slice` with JavaScript's relative, clamped bounds.
  `handlePop` relies on it: `slice(0, -1)` of an empty array is empty.
- `FileName`: the two pure rules of `handleCreate`.
  - `ContainsReserved` is the test of the regular expression `[\\\/:,;*?"<>|]`.
  - `Find` is the `items.find` lookup: the first `File` whose name is exactly the given one, case included.
- `FilePicker`: the class `Picker`.
  - Its fields are the component state: `pages: seq<Page>`, `loading`, and the optional roots `dropbox` and `github`.
  - The props are a constant: the mode and whether `onOpen` and `onSave` are present.
  - A ghost `trace` records, in order, every change of the loading flag and every backend call with the answer it got.
  - `Valid()` is the invariant every handler keeps:
    - each page is a folder that was listed, titled with its name and holding exactly the entries the listing returned;
    - `loading` is the value last set;
    - every `list` and `read` was issued while `loading` was on;
    - each remote was logged in to at most once, and a remote whose root is still null has never been logged in to.

  The handlers return an `Action` instead of calling the consumer:
  - `Opened(content, file)` is the call to `onOpen`;
  - `Overwrite(file)` and `CreateNew(folder, name)` are the write-back callbacks handed to `onSave`;
  - `NoOp` and `Rejected` mean no consumer is called;
  - `Fault` is `handleCreate` throwing when there is no current page.

  The write-back itself is `WriteBack`, which the consumer runs later with the content.
- `Sessions`: short runs of the handlers on a fresh picker. They show what a caller can conclude from the contracts.

The outside world comes in through parameters:
- what `prompt` and `confirm` answer;
- what the backends answer to `list`, `read`, `create` and `logIn`.

The alerts are dropped.

Behaviour of the code the model keeps on purpose:
- A failed backend call is not caught. The model has no failure path: every call answers, and nothing claims that `loading` is reset after a failure.
- `handlePop` on an empty stack is a no-op, because `slice(0, -1)` of an empty array is empty. No guard prevents the call.
- The create-new path never sets `loading` to true. Its write-back only sets it to false.
- `handleCreate` with no current page throws. `this.state.pages[-1]` is `undefined`, and destructuring it fails. The model returns `Fault` and changes nothing.

## Model

| member | source | states |
|---|---|---|
| JsArray.Slice | src/components/FilePicker.tsx:45 | `slice(start, end)` yields the elements from the clamped start up to the clamped end, in order, and an empty array when that range is empty |
| JsArray.DropLast | src/components/FilePicker.tsx:45 | `slice(0, -1)` removes exactly the last element and keeps the earlier ones in order; on an empty array it yields an empty array |
| JsArray.DropLastUndoesAppend | src/components/FilePicker.tsx:44-46 | removing the last element undoes appending one, so a pop after a push restores the stack |
| JsArray.Clamp | src/components/FilePicker.tsx:45 | by definition ECMAScript's clamping of a relative `slice` bound; the contract keeps the result within the length, which `Slice` relies on |
| FileName.IsFileNamed | src/components/FilePicker.tsx:107 | by definition the `find` callback: the entry is a file (never a folder) whose name equals the typed name exactly, case included |
| FilePicker.Typed | src/components/FilePicker.tsx:101 | by definition JavaScript's `!name` being false: the prompt returned a string (not null) and it is not empty |
| FilePicker.Acceptable | src/components/FilePicker.tsx:101-102 | the typed name is non-empty and none of its characters is reserved |
| FilePicker.Collides | src/components/FilePicker.tsx:106-108 | the last page holds a file whose name is exactly the typed one |
| FilePicker.Picker.Valid | src/components/FilePicker.tsx:19-29 | every page was listed, is titled with its folder's name and holds exactly the listed entries; `loading` is the value last set; `list` and `read` ran while loading; each remote was logged in to at most once, and a remote whose root is null never was |
| FileName.ContainsReserved | src/components/FilePicker.tsx:102 | the name is refused exactly when some character of it is one of `\ / : , ; * ? " < > \|` |
| FileName.FirstFileNamed | src/components/FilePicker.tsx:107 | the lookup stops at the first entry that is a file with exactly that name; no earlier entry is one |
| FileName.Find | src/components/FilePicker.tsx:106-107 | the lookup finds nothing exactly when no entry is a file with exactly that name; what it finds is a file of the list with that name |
| FileName.FindIgnoresFolders | src/components/FilePicker.tsx:107 | folders never take part: removing every folder from the list leaves the lookup's answer unchanged |
| FileName.FindCons | src/components/FilePicker.tsx:107 | the lookup answers with the head when the head is a matching file, and searches the rest otherwise |
| FileName.FindAppend | src/components/FilePicker.tsx:107 | when several files match, the first in list order wins: a match in the front part shadows every match behind it |
| FilePicker.ExtendBracketed | src/components/FilePicker.tsx:61-75 | a call bracketed by setting `loading` on and then off keeps every `list` and `read` issued while loading, and leaves `loading` off |
| FilePicker.Picker.constructor | src/components/FilePicker.tsx:32-42 | a new picker has no pages and is not loading; its remote roots are whatever the clients already hold; the invariant holds |
| FilePicker.Picker.HandlePop | src/components/FilePicker.tsx:44-46 | the stack becomes `slice(0, -1)` of the old one: exactly the last page is removed and the earlier pages keep their order; an empty stack stays empty; nothing else changes and no backend is called |
| FilePicker.Picker.HandleLogIn | src/components/FilePicker.tsx:48-59 | a root already filled is returned unchanged with no login; a null root triggers exactly one login, whose answer is stored under that remote and returned; the other root, the pages and `loading` are untouched |
| FilePicker.Picker.HandleList | src/components/FilePicker.tsx:61-75 | exactly one page `{title: folder.name, folder, items: entries}` is appended after the unchanged earlier pages, with the entries in the backend's order; the listing runs while `loading` is on, and `loading` is off afterwards |
| FilePicker.Picker.HandleSelect | src/components/FilePicker.tsx:77-96 | open mode without `onOpen`, and save mode without `onSave` or with the overwrite declined, change nothing and call no backend; open mode reads the file once between setting `loading` on and off and then delivers `(content, file)`; a confirmed save turns `loading` on and hands over a write-back on that same file |
| FilePicker.Picker.HandleCreate | src/components/FilePicker.tsx:98-126 | no `onSave`, a cancelled or empty prompt, or a reserved character: no consumer call and no backend call; a file of that exact name on the current page: overwrite it after confirmation (never create), otherwise nothing; no such file: create one of that name in the folder of the last page; no path calls the backend itself |
| FilePicker.Picker.WriteBack | src/components/FilePicker.tsx:111-124 | the write-back handed to `onSave` updates the chosen file and returns it, or creates the new file in the chosen folder and returns what the backend created; either way exactly one backend write, then `loading` is off |
| Sessions.LogInOnce | src/components/FilePicker.tsx:48-59 | choosing the same remote twice on a fresh picker makes exactly one login call (the whole trace is that one call); both calls return the first login's root |
| Sessions.ListThenPop | src/components/FilePicker.tsx:44-75 | listing a folder, then a sub-folder, then popping leaves exactly the first folder's page, with `loading` off |
| Sessions.SaveOverExisting | src/components/FilePicker.tsx:106-116 | saving under the name of a file already on the current page, with the overwrite confirmed, hands over an overwrite of that file; running it makes exactly one `update` call on that file, never a `create`, and returns the file |
| Sessions.DeclineOverwrite | src/components/FilePicker.tsx:106-117 | declining the overwrite of an existing file hands nothing to the consumer, makes no backend call beyond the listing, and leaves `loading` off |

## Left out

- `render` (src/components/FilePicker.tsx:128-199) is presentation only. So is the wiring in its click handlers: listing the browser root, logging in and then listing a remote root, and the device import through `importFromDevice`.
- `src/icons.ts` registers icons with a library and has no logic.
- The backends (`../api/browser`, `../api/dropbox`, `../api/github`, `../api/misc`) are not part of this model. Their answers are parameters.
- `alert`, and the texts of `prompt` and `confirm`, are user-interface effects. Only the answers are modelled.
- Failure of a backend call is not modelled. The source has no `catch`, so a rejected call would leave `loading` on; every modelled call succeeds.
- Asynchronous interleaving, React's batching of `setState`, and two logins racing are not modelled. The handlers run one at a time, each to completion.
- `browser` is part of the source's state, but nothing ever updates it. It is a constant field here.
- `onCancel` is only wired up in `render` and is not modelled.
