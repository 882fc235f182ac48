/**
 * The two pure rules `handleCreate` applies to the name the user typed:
 * the reserved-character test and the lookup of an existing file of that
 * name among the entries of the current page.
 */
module FileName {
  import opened Wrappers
  import opened Api

  /** The characters the regular expression's class `[\\\/:,;*?"<>|]` matches. */
  const Reserved: set<char> := {'\\', '/', ':', ',', ';', '*', '?', '"', '<', '>', '|'}

  /** The regular-expression test: does some character of `name` belong to the class? */
  function ContainsReserved(name: string): (r: bool)
    ensures r <==> exists i :: 0 <= i < |name| && name[i] in Reserved
  {
    if name == [] then false
    else if name[0] in Reserved then true
    else
      var rest := ContainsReserved(name[1..]);
      assert forall i :: 1 <= i < |name| ==> name[i] == name[1..][i - 1];
      rest
  }

  /** The `items.find` predicate: a file (never a folder) whose name is exactly `name`, case included. */
  predicate IsFileNamed(e: Entry, name: string)
  {
    e.File? && e.file.name == name
  }

  /** The index `find` stops at: the first entry satisfying the predicate, or `|items|` when none does. */
  function FirstFileNamed(items: seq<Entry>, name: string): (i: nat)
    ensures i <= |items|
    ensures i < |items| ==> IsFileNamed(items[i], name)
    ensures forall j :: 0 <= j < i ==> !IsFileNamed(items[j], name)
  {
    if items == [] then 0
    else if IsFileNamed(items[0], name) then 0
    else
      var i := 1 + FirstFileNamed(items[1..], name);
      assert forall j :: 1 <= j < |items| ==> items[j] == items[1..][j - 1];
      i
  }

  /** `items.find(...)`: the first file named `name` in list order, if any. */
  function Find(items: seq<Entry>, name: string): (r: Option<FileRef>)
    ensures r.None? <==> forall j :: 0 <= j < |items| ==> !IsFileNamed(items[j], name)
    ensures r.Some? ==> File(r.value) in items && r.value.name == name
  {
    var i := FirstFileNamed(items, name);
    if i < |items| then Some(items[i].file) else None
  }

  /** Files only keep their place in the list; folders are dropped. */
  function FilesOf(items: seq<Entry>): (r: seq<Entry>)
    ensures forall e :: e in r <==> e in items && e.File?
  {
    if items == [] then []
    else if items[0].File? then [items[0]] + FilesOf(items[1..])
    else FilesOf(items[1..])
  }

  /** Folders never take part in the lookup: removing them all leaves its answer unchanged. */
  lemma {:induction false} FindIgnoresFolders(items: seq<Entry>, name: string)
    ensures Find(items, name) == Find(FilesOf(items), name)
  {
    if items != [] {
      FindIgnoresFolders(items[1..], name);
      FindCons(items[0], items[1..], name);
      if items[0].File? {
        FindCons(items[0], FilesOf(items[1..]), name);
      }
    }
  }

  /** How `find` proceeds: it answers with the head when the head matches, and searches the tail otherwise. */
  lemma FindCons(e: Entry, rest: seq<Entry>, name: string)
    ensures Find([e] + rest, name) == if IsFileNamed(e, name) then Some(e.file) else Find(rest, name)
  {
  }

  /** First in list order: a match in the front part wins over any match behind it. */
  lemma {:induction false} FindAppend(a: seq<Entry>, b: seq<Entry>, name: string)
    ensures Find(a + b, name) == if Find(a, name).Some? then Find(a, name) else Find(b, name)
  {
    if a == [] {
      assert a + b == b;
    } else {
      assert a + b == [a[0]] + (a[1..] + b);
      assert a == [a[0]] + a[1..];
      FindCons(a[0], a[1..] + b, name);
      FindCons(a[0], a[1..], name);
      FindAppend(a[1..], b, name);
    }
  }
}
