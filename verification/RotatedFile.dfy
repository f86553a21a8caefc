/** The directory that holds the log, and the search in it for a rotated file by inode number. */
module RotatedFile {
  import opened Results

  type Inode = nat

  datatype Entry = Entry(name: string, isDir: bool, inode: Inode)

  /** A directory as ReadDir lists it. Paths are names relative to it. */
  type Directory = seq<Entry>

  ghost predicate NamesDistinct(dir: Directory) {
    forall i, j :: 0 <= i < j < |dir| ==> dir[i].name != dir[j].name
  }

  function Stat(dir: Directory, name: string): (r: Option<Entry>)
    ensures r.Some? ==> r.value in dir && r.value.name == name
    ensures r.None? ==> forall e :: e in dir ==> e.name != name
  {
    if dir == [] then None
    else if dir[0].name == name then Some(dir[0])
    else Stat(dir[1..], name)
  }

  predicate HasInode(dir: Directory, name: string, inode: Inode) {
    var r := Stat(dir, name);
    r.Some? && r.value.inode == inode
  }

  const SUFFIXES: seq<string> := [".1", ".0", "-old"]

  /** A sibling the directory walk may return: a plain file whose name extends the log's name. */
  predicate IsSibling(e: Entry, name: string, inode: Inode) {
    !e.isDir && e.name != name && name <= e.name && e.inode == inode
  }

  ghost predicate Carries(dir: Directory, name: string, inode: Inode) {
    Stat(dir, name).Some? && Stat(dir, name).value.inode == inode
  }

  /** The k-th entry is a plain file that carries the inode and whose name is the log's with something more. */
  ghost predicate SiblingAt(dir: Directory, name: string, inode: Inode, k: int) {
    && 0 <= k < |dir| && !dir[k].isDir && dir[k].inode == inode
    && |dir[k].name| > |name| && dir[k].name[..|name|] == name
  }

  /** What the search promises: path is the answer for the log `name` and the wanted inode. The three usual
      names come first, in this order, then the siblings as the directory lists them. */
  ghost predicate IsAnswer(dir: Directory, name: string, inode: Inode, path: string) {
    if Carries(dir, name + ".1", inode) then path == name + ".1"
    else if Carries(dir, name + ".0", inode) then path == name + ".0"
    else if Carries(dir, name + "-old", inode) then path == name + "-old"
    else if exists k :: SiblingAt(dir, name, inode, k) then
      exists k :: SiblingAt(dir, name, inode, k) && path == dir[k].name
                  && forall i :: i < k ==> !SiblingAt(dir, name, inode, i)
    else path == ""
  }

  function FirstSuffix(dir: Directory, name: string, inode: Inode, from: nat): string
    requires from <= |SUFFIXES|
    decreases |SUFFIXES| - from
  {
    if from == |SUFFIXES| then ""
    else if HasInode(dir, name + SUFFIXES[from], inode) then name + SUFFIXES[from]
    else FirstSuffix(dir, name, inode, from + 1)
  }

  function FirstSibling(dir: Directory, name: string, inode: Inode, from: nat): string
    requires from <= |dir|
    decreases |dir| - from
  {
    if from == |dir| then ""
    else if IsSibling(dir[from], name, inode) then dir[from].name
    else FirstSibling(dir, name, inode, from + 1)
  }

  /** The search as a value; FindRotatedFile below computes it with the source's two loops. */
  function Find(dir: Directory, name: string, inode: Inode): string {
    var p := FirstSuffix(dir, name, inode, 0);
    if p != "" then p else FirstSibling(dir, name, inode, 0)
  }

  method FindRotatedFile(dir: Directory, name: string, inode: Inode) returns (path: string)
    ensures path == Find(dir, name, inode)
  {
    for k := 0 to |SUFFIXES|
      invariant FirstSuffix(dir, name, inode, 0) == FirstSuffix(dir, name, inode, k)
    {
      var candidate := name + SUFFIXES[k];
      var fi := Stat(dir, candidate);
      if fi.None? {
        continue;
      }
      if fi.value.inode == inode {
        return candidate;
      }
    }
    for k := 0 to |dir|
      invariant FirstSuffix(dir, name, inode, 0) == ""
      invariant FirstSibling(dir, name, inode, 0) == FirstSibling(dir, name, inode, k)
    {
      var entry := dir[k];
      if entry.isDir {
        continue;
      }
      if entry.name == name {
        continue;
      }
      if !(name <= entry.name) {
        continue;
      }
      if entry.inode == inode {
        return entry.name;
      }
    }
    return "";
  }

  lemma {:induction false} FirstSuffixFinds(dir: Directory, name: string, inode: Inode, from: nat)
    requires from <= |SUFFIXES|
    ensures var p := FirstSuffix(dir, name, inode, from);
            if p == "" then forall j :: from <= j < |SUFFIXES| ==> !HasInode(dir, name + SUFFIXES[j], inode)
            else exists j :: from <= j < |SUFFIXES| && p == name + SUFFIXES[j] && HasInode(dir, p, inode)
                             && forall i :: from <= i < j ==> !HasInode(dir, name + SUFFIXES[i], inode)
    decreases |SUFFIXES| - from
  {
    if from < |SUFFIXES| {
      FirstSuffixFinds(dir, name, inode, from + 1);
      assert name + SUFFIXES[from] != "";
    }
  }

  lemma {:induction false} FirstSiblingFinds(dir: Directory, name: string, inode: Inode, from: nat)
    requires from <= |dir| && name != ""
    ensures var p := FirstSibling(dir, name, inode, from);
            if p == "" then forall j :: from <= j < |dir| ==> !IsSibling(dir[j], name, inode)
            else exists j :: from <= j < |dir| && p == dir[j].name && IsSibling(dir[j], name, inode)
                             && forall i :: from <= i < j ==> !IsSibling(dir[i], name, inode)
    decreases |dir| - from
  {
    if from < |dir| {
      FirstSiblingFinds(dir, name, inode, from + 1);
    }
  }

  /** The search is sound, complete and prioritised: the path it returns keeps the promise, and it is the
      only one that does. */
  lemma FindIsAnswer(dir: Directory, name: string, inode: Inode, path: string)
    requires name != ""
    ensures IsAnswer(dir, name, inode, path) <==> path == Find(dir, name, inode)
  {
    SuffixAnswer(dir, name, inode);
    if FirstSuffix(dir, name, inode, 0) == "" {
      SiblingAnswer(dir, name, inode, path);
    }
  }

  lemma SuffixAnswer(dir: Directory, name: string, inode: Inode)
    ensures FirstSuffix(dir, name, inode, 0)
         == if Carries(dir, name + ".1", inode) then name + ".1"
            else if Carries(dir, name + ".0", inode) then name + ".0"
            else if Carries(dir, name + "-old", inode) then name + "-old"
            else ""
  {
    assert FirstSuffix(dir, name, inode, 3) == "";
    assert FirstSuffix(dir, name, inode, 2) == if Carries(dir, name + "-old", inode) then name + "-old" else "";
  }

  lemma SiblingAnswer(dir: Directory, name: string, inode: Inode, path: string)
    requires name != ""
    ensures path == FirstSibling(dir, name, inode, 0) <==>
              if exists k :: SiblingAt(dir, name, inode, k) then
                exists k :: SiblingAt(dir, name, inode, k) && path == dir[k].name
                            && forall i :: i < k ==> !SiblingAt(dir, name, inode, i)
              else path == ""
  {
    forall k | 0 <= k < |dir|
      ensures SiblingAt(dir, name, inode, k) <==> IsSibling(dir[k], name, inode)
    {
    }
    FirstSiblingFinds(dir, name, inode, 0);
    var p := FirstSibling(dir, name, inode, 0);
    if p != "" {
      var j :| 0 <= j < |dir| && p == dir[j].name && IsSibling(dir[j], name, inode)
               && forall i :: 0 <= i < j ==> !IsSibling(dir[i], name, inode);
      assert SiblingAt(dir, name, inode, j);
    }
  }

  lemma {:induction false} StatOfEntry(dir: Directory, k: nat)
    requires NamesDistinct(dir) && k < |dir|
    ensures Stat(dir, dir[k].name) == Some(dir[k])
  {
    if k > 0 {
      assert NamesDistinct(dir[1..]);
      StatOfEntry(dir[1..], k - 1);
    }
  }

  /** Opening the returned path opens the wanted inode, under another name than the log's own. */
  lemma FoundHasInode(dir: Directory, name: string, inode: Inode)
    requires NamesDistinct(dir) && name != "" && Find(dir, name, inode) != ""
    ensures Carries(dir, Find(dir, name, inode), inode) && Find(dir, name, inode) != name
  {
    FirstSuffixFinds(dir, name, inode, 0);
    FirstSiblingFinds(dir, name, inode, 0);
    var p := Find(dir, name, inode);
    if FirstSuffix(dir, name, inode, 0) == "" {
      var j :| 0 <= j < |dir| && p == dir[j].name && IsSibling(dir[j], name, inode);
      StatOfEntry(dir, j);
    } else {
      var j :| 0 <= j < |SUFFIXES| && p == name + SUFFIXES[j];
      assert |p| > |name|;
    }
  }
}
