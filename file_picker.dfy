/**
 * The navigation and selection controller of the file picker: a stack of
 * visited folder pages, a loading flag, and lazily filled roots for the two
 * remote backends. User answers (`prompt`, `confirm`) and backend results
 * (listed entries, file contents, login roots, created files) arrive as
 * parameters; the backend calls made are recorded in a ghost trace together
 * with every change of the loading flag.
 */
module FilePicker {
  import opened Wrappers
  import opened Api
  import JsArray
  import FileName

  datatype Mode = Open | Save

  /** What the embedding component configured: the mode and which consumer callbacks are present. */
  datatype Props = Props(mode: Mode, hasOnOpen: bool, hasOnSave: bool)

  /** One level of navigation: a listed folder and its entries in the backend's order. */
  datatype Page = Page(title: string, folder: FolderRef, items: seq<Entry>)

  datatype Remote = Dropbox | GitHub

  function Other(which: Remote): (r: Remote)
    ensures r != which
  {
    if which == Dropbox then GitHub else Dropbox
  }

  /** A backend call, with the result the backend answered. */
  datatype Call =
    | List(folder: FolderRef, entries: seq<Entry>)
    | Read(file: FileRef, content: string)
    | Update(file: FileRef, content: string)
    | Create(folder: FolderRef, name: string, content: string, created: FileRef)
    | LogIn(which: Remote, root: FolderRef)

  /** What the picker did, in order: a change of the loading flag or a backend call. */
  datatype Step = SetLoading(on: bool) | Backend(call: Call)

  /**
   * What a selection handler hands to its consumer. `Opened` is the pair given
   * to `onOpen`; `Overwrite` and `CreateNew` are the write-back callbacks given
   * to `onSave`; `NoOp` and `Rejected` mean no consumer was called (`Rejected`
   * after the alert about a reserved character); `Fault` is `handleCreate`
   * failing because there is no current page.
   */
  datatype Action =
    | NoOp
    | Rejected
    | Fault
    | Opened(content: string, file: FileRef)
    | Overwrite(file: FileRef)
    | CreateNew(folder: FolderRef, name: string)

  /** The loading flag as the trace last set it (initially false). */
  function LoadingAfter(trace: seq<Step>): (on: bool)
  {
    if trace == [] then false
    else if trace[|trace| - 1].SetLoading? then trace[|trace| - 1].on
    else LoadingAfter(trace[..|trace| - 1])
  }

  predicate IsLogIn(s: Step, which: Remote)
  {
    s.Backend? && s.call.LogIn? && s.call.which == which
  }

  /** How many times the trace logged in to `which`. */
  function LogIns(trace: seq<Step>, which: Remote): (n: nat)
  {
    if trace == [] then 0
    else (if IsLogIn(trace[0], which) then 1 else 0) + LogIns(trace[1..], which)
  }

  lemma {:induction false} LogInsAppend(a: seq<Step>, b: seq<Step>, which: Remote)
    ensures LogIns(a + b, which) == LogIns(a, which) + LogIns(b, which)
  {
    if a == [] {
      assert a + b == b;
    } else {
      assert (a + b)[0] == a[0];
      assert (a + b)[1..] == a[1..] + b;
      LogInsAppend(a[1..], b, which);
    }
  }

  /** Steps that carry no login to `which` do not count. */
  lemma {:induction false} LogInsNone(s: seq<Step>, which: Remote)
    requires forall k :: 0 <= k < |s| ==> !IsLogIn(s[k], which)
    ensures LogIns(s, which) == 0
  {
    if s != [] {
      assert forall k :: 0 <= k < |s| - 1 ==> s[1..][k] == s[k + 1];
      LogInsNone(s[1..], which);
    }
  }

  /** Appending steps that log in nowhere leaves every login count as it was. */
  lemma ExtendNoLogIn(trace: seq<Step>, ext: seq<Step>)
    requires forall k :: 0 <= k < |ext| ==> !(ext[k].Backend? && ext[k].call.LogIn?)
    ensures forall w :: LogIns(trace + ext, w) == LogIns(trace, w)
  {
    forall w ensures LogIns(trace + ext, w) == LogIns(trace, w) {
      LogInsAppend(trace, ext, w);
      LogInsNone(ext, w);
    }
  }

  /** A listing or a read: the calls the source brackets with the loading flag. */
  predicate IsGuardedCall(s: Step)
  {
    s.Backend? && (s.call.List? || s.call.Read?)
  }

  /** Every listing and every read in the trace was issued while the loading flag was on. */
  ghost predicate GuardedCalls(trace: seq<Step>)
  {
    forall i :: 0 <= i < |trace| && IsGuardedCall(trace[i]) ==> LoadingAfter(trace[..i])
  }

  /** Extending a trace with steps that issue no listing or read keeps the calls guarded. */
  lemma ExtendUnguarded(trace: seq<Step>, ext: seq<Step>)
    requires GuardedCalls(trace)
    requires forall k :: 0 <= k < |ext| ==> !IsGuardedCall(ext[k])
    ensures GuardedCalls(trace + ext)
  {
    var t := trace + ext;
    forall i | 0 <= i < |t| && IsGuardedCall(t[i])
      ensures LoadingAfter(t[..i])
    {
      assert i < |trace|;
      assert t[..i] == trace[..i];
    }
  }

  /** The three steps `handleList` and the open branch of `handleSelect` add keep the calls guarded. */
  lemma ExtendBracketed(trace: seq<Step>, call: Call)
    requires GuardedCalls(trace)
    ensures GuardedCalls(trace + [SetLoading(true), Backend(call), SetLoading(false)])
    ensures LoadingAfter(trace + [SetLoading(true), Backend(call), SetLoading(false)]) == false
  {
    var t := trace + [SetLoading(true), Backend(call), SetLoading(false)];
    forall i | 0 <= i < |t| && IsGuardedCall(t[i])
      ensures LoadingAfter(t[..i])
    {
      if i < |trace| {
        assert t[..i] == trace[..i];
      } else {
        assert i == |trace| + 1;
        assert t[..i] == trace + [SetLoading(true)];
      }
    }
  }

  /** The prompt returned a non-empty string (`!name` is false). */
  predicate Typed(answer: Option<string>)
  {
    answer.Some? && answer.value != ""
  }

  /** A name `handleCreate` goes on with: typed, and free of reserved characters. */
  predicate Acceptable(answer: Option<string>)
    ensures Acceptable(answer) ==> answer.Some? && |answer.value| > 0
    ensures Acceptable(answer) ==> forall i :: 0 <= i < |answer.value| ==> answer.value[i] !in FileName.Reserved
    ensures Typed(answer) && !Acceptable(answer) ==> exists i :: 0 <= i < |answer.value| && answer.value[i] in FileName.Reserved
  {
    Typed(answer) && !FileName.ContainsReserved(answer.value)
  }

  /** The current (last) page already holds a file named `name`. */
  predicate Collides(pages: seq<Page>, name: string)
    requires pages != []
    ensures Collides(pages, name) <==>
      exists e :: e in pages[|pages| - 1].items && FileName.IsFileNamed(e, name)
  {
    FileName.Find(pages[|pages| - 1].items, name).Some?
  }

  class Picker {
    const props: Props
    /** The browser-storage root: always available. */
    const browser: FolderRef

    var pages: seq<Page>
    var loading: bool
    var dropbox: Option<FolderRef>
    var github: Option<FolderRef>

    /** Everything the picker did so far, oldest first. */
    ghost var trace: seq<Step>

    function Root(which: Remote): (r: Option<FolderRef>)
      reads this
    {
      if which == Dropbox then dropbox else github
    }

    /**
     * The picker's invariant: each page is a folder that was listed, titled
     * with the folder's name and holding exactly the entries the listing
     * returned; the loading flag is the one last set; listings and reads
     * were issued while loading; and each remote was logged in to at most
     * once, and only if its root is now filled.
     */
    ghost predicate Valid()
      reads this
    {
      (forall i :: 0 <= i < |pages| ==>
         pages[i].title == pages[i].folder.name &&
         Backend(List(pages[i].folder, pages[i].items)) in trace) &&
      loading == LoadingAfter(trace) &&
      GuardedCalls(trace) &&
      (forall which :: LogIns(trace, which) <= 1 && (Root(which).None? ==> LogIns(trace, which) == 0))
    }

    /** A fresh picker: no pages, not loading; the remote roots are whatever the clients already hold. */
    constructor (props: Props, browser: FolderRef, dropbox: Option<FolderRef>, github: Option<FolderRef>)
      ensures Valid()
      ensures this.props == props && this.browser == browser
      ensures pages == [] && !loading
      ensures this.dropbox == dropbox && this.github == github
      ensures trace == []
    {
      this.props := props;
      this.browser := browser;
      pages := [];
      loading := false;
      this.dropbox := dropbox;
      this.github := github;
      trace := [];
    }

    /** `handlePop`: replace the stack by `pages.slice(0, -1)`. */
    method HandlePop()
      requires Valid()
      modifies this
      ensures Valid()
      ensures pages == JsArray.Slice(old(pages), 0, -1)
      ensures |old(pages)| > 0 ==> pages == old(pages)[..|old(pages)| - 1]
      ensures old(pages) == [] ==> pages == []
      ensures loading == old(loading) && dropbox == old(dropbox) && github == old(github)
      ensures trace == old(trace)
    {
      JsArray.DropLast(pages);
      pages := JsArray.Slice(pages, 0, -1);
    }

    /**
     * `handleLogIn`: return the root of `which`, logging in first (with
     * `answer` as the login's result) only when that root is still null.
     */
    method HandleLogIn(which: Remote, answer: FolderRef) returns (root: FolderRef)
      requires Valid()
      modifies this
      ensures Valid()
      ensures old(Root(which)).Some? ==> root == old(Root(which)).value && Root(which) == old(Root(which)) && trace == old(trace)
      ensures old(Root(which)).None? ==> root == answer && Root(which) == Some(answer) && trace == old(trace) + [Backend(LogIn(which, answer))]
      ensures Root(Other(which)) == old(Root(Other(which)))
      ensures pages == old(pages) && loading == old(loading)
    {
      var current := Root(which);
      if current.Some? {
        root := current.value;
      } else {
        root := answer;
        if which == Dropbox {
          dropbox := Some(root);
        } else {
          github := Some(root);
        }
        ghost var ext := [Backend(LogIn(which, answer))];
        ExtendUnguarded(trace, ext);
        assert LogIns(trace, which) == 0;
        forall w ensures LogIns(trace + ext, w) == LogIns(trace, w) + (if w == which then 1 else 0) {
          LogInsAppend(trace, ext, w);
          assert ext[1..] == [];
        }
        assert (trace + ext)[..|trace|] == trace;
        trace := trace + ext;
      }
    }

    /** `handleList`: list `folder` (the backend answers `entries`) and push its page. */
    method HandleList(folder: FolderRef, entries: seq<Entry>)
      requires Valid()
      modifies this
      ensures Valid()
      ensures pages == old(pages) + [Page(folder.name, folder, entries)]
      ensures !loading
      ensures dropbox == old(dropbox) && github == old(github)
      ensures trace == old(trace) + [SetLoading(true), Backend(List(folder, entries)), SetLoading(false)]
    {
      ghost var ext := [SetLoading(true), Backend(List(folder, entries)), SetLoading(false)];
      ExtendBracketed(trace, List(folder, entries));
      ExtendNoLogIn(trace, ext);
      loading := true;
      pages := pages + [Page(folder.name, folder, entries)];
      loading := false;
      trace := trace + ext;
    }

    /**
     * `handleSelect`: a file entry was clicked. In open mode the file is read
     * (the backend answers `content`) and the pair is handed to `onOpen`; in
     * save mode the user is asked to confirm the overwrite (answering
     * `confirmed`) and a write-back on that same file is handed to `onSave`.
     */
    method HandleSelect(file: FileRef, confirmed: bool, content: string) returns (action: Action)
      requires Valid()
      modifies this
      ensures Valid()
      ensures pages == old(pages) && dropbox == old(dropbox) && github == old(github)
      ensures props.mode == Open && !props.hasOnOpen ==>
        action == NoOp && loading == old(loading) && trace == old(trace)
      ensures props.mode == Open && props.hasOnOpen ==>
        action == Opened(content, file) && !loading &&
        trace == old(trace) + [SetLoading(true), Backend(Read(file, content)), SetLoading(false)]
      ensures props.mode == Save && !(props.hasOnSave && confirmed) ==>
        action == NoOp && loading == old(loading) && trace == old(trace)
      ensures props.mode == Save && props.hasOnSave && confirmed ==>
        action == Overwrite(file) && loading && trace == old(trace) + [SetLoading(true)]
    {
      if props.mode == Open {
        if !props.hasOnOpen {
          return NoOp;
        }
        ghost var ext := [SetLoading(true), Backend(Read(file, content)), SetLoading(false)];
        ExtendBracketed(trace, Read(file, content));
        ExtendNoLogIn(trace, ext);
        loading := true;
        loading := false;
        trace := trace + ext;
        action := Opened(content, file);
      } else {
        if !props.hasOnSave {
          return NoOp;
        }
        if confirmed {
          ghost var ext := [SetLoading(true)];
          ExtendUnguarded(trace, ext);
          ExtendNoLogIn(trace, ext);
          loading := true;
          trace := trace + ext;
          action := Overwrite(file);
        } else {
          action := NoOp;
        }
      }
    }

    /**
     * `handleCreate`: the user asked to save under a new name. `answer` is what
     * the name prompt returned (`None` for a cancelled prompt) and `confirmed`
     * the answer to the overwrite question, asked only when a file of that
     * name is already on the current page.
     */
    method HandleCreate(answer: Option<string>, confirmed: bool) returns (action: Action)
      requires Valid()
      modifies this
      ensures Valid()
      ensures pages == old(pages) && dropbox == old(dropbox) && github == old(github)
      // no consumer, or a cancelled or empty prompt: nothing happens
      ensures !props.hasOnSave || answer == None || answer == Some("") ==> action == NoOp
      // a reserved character: the name is refused
      ensures action == Rejected <==> props.hasOnSave && Typed(answer) && FileName.ContainsReserved(answer.value)
      // with no current page the destructuring throws
      ensures action == Fault <==> props.hasOnSave && Acceptable(answer) && pages == []
      // a file of that name on the current page: overwrite it once confirmed, else do nothing
      ensures action.Overwrite? <==>
        props.hasOnSave && Acceptable(answer) && pages != [] && Collides(pages, answer.value) && confirmed
      ensures action.Overwrite? ==> FileName.Find(pages[|pages| - 1].items, answer.value) == Some(action.file)
      // no such file: create one of that name in the current page's folder
      ensures action.CreateNew? <==>
        props.hasOnSave && Acceptable(answer) && pages != [] && !Collides(pages, answer.value)
      ensures action.CreateNew? ==> action == CreateNew(pages[|pages| - 1].folder, answer.value)
      ensures !action.Opened?
      // only the overwrite path shows the loader; no path calls the backend
      ensures action.Overwrite? ==> loading && trace == old(trace) + [SetLoading(true)]
      ensures !action.Overwrite? ==> loading == old(loading) && trace == old(trace)
    {
      if !props.hasOnSave || answer.None? || answer.value == "" {
        return NoOp;
      }
      var name := answer.value;
      if FileName.ContainsReserved(name) {
        return Rejected;
      }
      if pages == [] {
        return Fault;
      }
      var current := pages[|pages| - 1];
      var found := FileName.Find(current.items, name);
      if found.None? {
        return CreateNew(current.folder, name);
      }
      if !confirmed {
        return NoOp;
      }
      ghost var ext := [SetLoading(true)];
      ExtendUnguarded(trace, ext);
      ExtendNoLogIn(trace, ext);
      loading := true;
      trace := trace + ext;
      action := Overwrite(found.value);
    }

    /**
     * The write-back callback handed to `onSave`, run when the consumer calls
     * it with `content`: update the chosen file, or create the new one (the
     * backend answers `created`); then clear the loading flag and return the
     * file written.
     */
    method WriteBack(action: Action, content: string, created: FileRef) returns (file: FileRef)
      requires Valid()
      requires action.Overwrite? || action.CreateNew?
      modifies this
      ensures Valid()
      ensures pages == old(pages) && dropbox == old(dropbox) && github == old(github)
      ensures !loading
      ensures action.Overwrite? ==>
        file == action.file && trace == old(trace) + [Backend(Update(action.file, content)), SetLoading(false)]
      ensures action.CreateNew? ==>
        file == created && trace == old(trace) + [Backend(Create(action.folder, action.name, content, created)), SetLoading(false)]
    {
      ghost var call := if action.Overwrite? then Update(action.file, content)
                        else Create(action.folder, action.name, content, created);
      ghost var ext := [Backend(call), SetLoading(false)];
      ExtendUnguarded(trace, ext);
      ExtendNoLogIn(trace, ext);
      if action.Overwrite? {
        file := action.file;
      } else {
        file := created;
      }
      loading := false;
      trace := trace + ext;
    }
  }
}
