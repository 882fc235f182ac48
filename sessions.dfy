/**
 * Short sessions driven through the picker's handlers, showing what a caller
 * can conclude from their contracts alone.
 */
module Sessions {
  import opened Wrappers
  import opened Api
  import opened FilePicker

  /** Choosing a remote twice logs in once: the second login's answer is never used. */
  method LogInOnce(props: Props, browser: FolderRef, first: FolderRef, second: FolderRef)
    returns (r1: FolderRef, r2: FolderRef, ghost t: seq<Step>)
    ensures r1 == first && r2 == first
    ensures t == [Backend(LogIn(Dropbox, first))]
  {
    var p := new Picker(props, browser, None, None);
    r1 := p.HandleLogIn(Dropbox, first);
    r2 := p.HandleLogIn(Dropbox, second);
    t := p.trace;
  }

  /** Going into a sub-folder and back leaves exactly the page of the folder listed first. */
  method ListThenPop(props: Props, root: FolderRef, rootItems: seq<Entry>, sub: FolderRef, subItems: seq<Entry>)
    returns (pages: seq<Page>, loading: bool)
    ensures pages == [Page(root.name, root, rootItems)]
    ensures !loading
  {
    var p := new Picker(props, root, None, None);
    p.HandleList(root, rootItems);
    p.HandleList(sub, subItems);
    p.HandlePop();
    pages, loading := p.pages, p.loading;
  }

  /**
   * Saving under a name that a file on the current page already has, and
   * confirming, overwrites that file: the write-back updates it and returns it.
   */
  method SaveOverExisting(root: FolderRef, before: seq<Entry>, existing: FileRef, content: string, created: FileRef)
    returns (action: Action, written: FileRef, loading: bool, ghost t: seq<Step>)
    requires existing.name != "" && !FileName.ContainsReserved(existing.name)
    requires forall k :: 0 <= k < |before| ==> !FileName.IsFileNamed(before[k], existing.name)
    ensures action == Overwrite(existing) && written == existing && !loading
    ensures t == [SetLoading(true), Backend(List(root, before + [File(existing)])), SetLoading(false),
                  SetLoading(true), Backend(Update(existing, content)), SetLoading(false)]
  {
    var p := new Picker(Props(Save, false, true), root, None, None);
    p.HandleList(root, before + [File(existing)]);
    FileName.FindAppend(before, [File(existing)], existing.name);
    FileName.FindCons(File(existing), [], existing.name);
    action := p.HandleCreate(Some(existing.name), true);
    written := p.WriteBack(action, content, created);
    loading := p.loading;
    t := p.trace;
  }

  /** Declining to overwrite hands nothing to the consumer and calls no backend: the only call is the listing. */
  method DeclineOverwrite(root: FolderRef, existing: FileRef)
    returns (action: Action, loading: bool, ghost t: seq<Step>)
    requires existing.name != "" && !FileName.ContainsReserved(existing.name)
    ensures action == NoOp && !loading
    ensures t == [SetLoading(true), Backend(List(root, [File(existing)])), SetLoading(false)]
  {
    var p := new Picker(Props(Save, false, true), root, None, None);
    p.HandleList(root, [File(existing)]);
    FileName.FindCons(File(existing), [], existing.name);
    action := p.HandleCreate(Some(existing.name), false);
    loading := p.loading;
    t := p.trace;
  }
}
