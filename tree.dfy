/** The part of the file system the task board lives in, and the fs-extra calls
    the server makes on it (backend/server.js). The tasks base path holds one
    directory per column; a column directory holds task directories (and maybe
    stray files); a task directory holds files (and maybe folders whose contents
    nothing reads). */
module Tree {
  import opened Wrappers

  /** What a task directory holds under one name. */
  datatype Entry = File(text: string) | SubDir

  /** What a column directory holds under one name. */
  datatype Item = Folder(entries: map<string, Entry>) | Plain(text: string)

  /** The column directories under the tasks base path, by directory name. */
  type Fs = map<string, map<string, Item>>

  /** A path below the tasks base path. */
  datatype Path =
    | ColumnPath(dir: string)
    | ItemPath(dir: string, item: string)
    | EntryPath(dir: string, item: string, entry: string)

  /** `path.join(base, dir, id)`: an empty id drops out of the path. */
  function TaskPath(dir: string, id: string): (p: Path)
    ensures id == "" ==> p == ColumnPath(dir)
    ensures id != "" ==> p == ItemPath(dir, id)
  {
    if id == "" then ColumnPath(dir) else ItemPath(dir, id)
  }

  /** `path.join(base, dir, id, name)`: an empty id drops out of the path. */
  function FilePath(dir: string, id: string, name: string): (p: Path)
    ensures id == "" ==> p == ItemPath(dir, name)
    ensures id != "" ==> p == EntryPath(dir, id, name)
  {
    if id == "" then ItemPath(dir, name) else EntryPath(dir, id, name)
  }

  /** Distinct tasks have distinct paths: the empty id names the column
      directory itself and no other id does. */
  lemma {:induction false} TaskPathInjective(dir1: string, id1: string, dir2: string, id2: string)
    requires TaskPath(dir1, id1) == TaskPath(dir2, id2)
    ensures dir1 == dir2 && id1 == id2
  {
  }

  /** A task's file lies in the task's directory; for the empty id that is the
      column directory, where the file takes the place of a task named like the
      file. */
  lemma {:induction false} FileInTask(dir: string, id: string, name: string)
    ensures Parent(FilePath(dir, id, name)) == TaskPath(dir, id)
    ensures id == "" && name != "" ==> FilePath(dir, id, name) == TaskPath(dir, name)
  {
  }

  /** `fs.pathExists(p)`: something is at `p`. Below a plain file nothing is. */
  predicate Exists(fs: Fs, p: Path) {
    match p
    case ColumnPath(d) => d in fs
    case ItemPath(d, i) => d in fs && i in fs[d]
    case EntryPath(d, i, e) => d in fs && i in fs[d] && fs[d][i].Folder? && e in fs[d][i].entries
  }

  /** A directory is at `p`. */
  predicate IsDirectory(fs: Fs, p: Path) {
    match p
    case ColumnPath(d) => d in fs
    case ItemPath(d, i) => d in fs && i in fs[d] && fs[d][i].Folder?
    case EntryPath(d, i, e) => Exists(fs, p) && fs[d][i].entries[e].SubDir?
  }

  /** `fs.readFile(p, 'utf8')`: the text of the file at `p`; reading a missing
      path or a directory fails. */
  function ReadFile(fs: Fs, p: Path): (r: Option<string>)
    ensures r.Some? <==> Exists(fs, p) && !IsDirectory(fs, p)
  {
    match p
    case ColumnPath(d) => None
    case ItemPath(d, i) =>
      if d in fs && i in fs[d] && fs[d][i].Plain? then Some(fs[d][i].text) else None
    case EntryPath(d, i, e) =>
      if Exists(fs, p) && fs[d][i].entries[e].File? then Some(fs[d][i].entries[e].text) else None
  }

  /** `fs.readdir(p)`: the names a directory holds; it fails on anything else. */
  function ReadDir(fs: Fs, p: Path): (r: Option<set<string>>)
    ensures r.Some? <==> IsDirectory(fs, p)
    ensures p.ItemPath? && r.Some? ==> r.value == fs[p.dir][p.item].entries.Keys
  {
    match p
    case ColumnPath(d) => if d in fs then Some(fs[d].Keys) else None
    case ItemPath(d, i) =>
      if d in fs && i in fs[d] && fs[d][i].Folder? then Some(fs[d][i].entries.Keys) else None
    case EntryPath(d, i, e) => if IsDirectory(fs, p) then Some({}) else None
  }

  /** `fs.writeFile(p, text)`: creates or overwrites the file at `p`. It fails when
      `p` is a directory or its parent is not one. Column directories are never
      written to as files. */
  function WriteFile(fs: Fs, p: Path, text: string): (r: Option<Fs>)
    requires !p.ColumnPath?
    ensures r.Some? <==> IsDirectory(fs, Parent(p)) && !IsDirectory(fs, p)
    ensures r.Some? ==> ReadFile(r.value, p) == Some(text)
  {
    match p
    case ItemPath(d, i) =>
      if d in fs && !(i in fs[d] && fs[d][i].Folder?) then Some(fs[d := fs[d][i := Plain(text)]])
      else None
    case EntryPath(d, i, e) =>
      if IsDirectory(fs, ItemPath(d, i)) && !(e in fs[d][i].entries && fs[d][i].entries[e].SubDir?) then
        Some(fs[d := fs[d][i := Folder(fs[d][i].entries[e := File(text)])]])
      else None
  }

  /** The directory a path is in (a column directory's parent is the base path,
      which is always there). */
  function Parent(p: Path): (q: Path)
    requires !p.ColumnPath?
  {
    match p
    case ItemPath(d, i) => ColumnPath(d)
    case EntryPath(d, i, e) => ItemPath(d, i)
  }

  /** `fs.ensureDir(p)`: makes the directory at `p` and any missing parent; a
      directory that is already there is left as it is, and a file in the way
      makes it fail. */
  function EnsureDir(fs: Fs, p: Path): (r: Option<Fs>)
    requires !p.EntryPath?
    ensures r.Some? ==> IsDirectory(r.value, p)
    ensures IsDirectory(fs, p) ==> r == Some(fs)
    ensures r.None? <==> Exists(fs, p) && !IsDirectory(fs, p)
    ensures r.Some? ==> forall d :: d in r.value <==> d in fs || d == p.dir
    ensures r.Some? ==> forall d, i :: d in fs && i in fs[d] ==> d in r.value && i in r.value[d] && r.value[d][i] == fs[d][i]
    ensures r.Some? ==> forall d, i :: d in r.value && i in r.value[d] && !(d in fs && i in fs[d]) ==>
                          p == ItemPath(d, i) && r.value[d][i] == Folder(map[])
  {
    match p
    case ColumnPath(d) => if d in fs then Some(fs) else Some(fs[d := map[]])
    case ItemPath(d, i) =>
      if d !in fs then Some(fs[d := map[i := Folder(map[])]])
      else if i !in fs[d] then Some(fs[d := fs[d][i := Folder(map[])]])
      else if fs[d][i].Folder? then Some(fs)
      else None
  }

  /** `fs.move(src, dst)` for items of column directories: it refuses a
      destination that exists (the source itself included) and otherwise
      renames, making the destination column directory when it is missing. */
  function Move(fs: Fs, d1: string, id: string, d2: string): (r: Option<Fs>)
    requires Exists(fs, ItemPath(d1, id))
    ensures r.None? <==> Exists(fs, ItemPath(d2, id))
  {
    if d2 in fs && id in fs[d2] then None
    else
      var left := fs[d1 := fs[d1] - {id}];
      var target := if d2 in left then left[d2] else map[];
      Some(left[d2 := target[id := fs[d1][id]]])
  }

  /** A successful move takes the item out of its column and puts it, unchanged,
      under the same name in the other column; every other item stays where it
      was. */
  lemma {:induction false} MoveRelocates(fs: Fs, d1: string, id: string, d2: string)
    requires Exists(fs, ItemPath(d1, id))
    requires Move(fs, d1, id, d2).Some?
    ensures var after := Move(fs, d1, id, d2).value;
            && !Exists(after, ItemPath(d1, id))
            && Exists(after, ItemPath(d2, id)) && after[d2][id] == fs[d1][id]
            && (forall d, i :: d in fs && i in fs[d] && (d, i) != (d1, id) ==>
                  d in after && i in after[d] && after[d][i] == fs[d][i])
            && (forall d, i :: d in after && i in after[d] && (d, i) != (d2, id) ==>
                  d in fs && i in fs[d] && after[d][i] == fs[d][i])
  {
    var after := Move(fs, d1, id, d2).value;
    assert d1 != d2;
    forall d, i | d in fs && i in fs[d] && (d, i) != (d1, id)
      ensures d in after && i in after[d] && after[d][i] == fs[d][i]
    {
      if d == d2 {
        assert i != id;
      }
    }
  }

  /** A move keeps the number of items in the two columns together. */
  lemma {:induction false} MoveKeepsCount(fs: Fs, d1: string, id: string, d2: string)
    requires Exists(fs, ItemPath(d1, id))
    requires Move(fs, d1, id, d2).Some?
    ensures var after := Move(fs, d1, id, d2).value;
            var before := if d2 in fs then |fs[d2]| else 0;
            |after[d1]| + |after[d2]| == |fs[d1]| + before
  {
    var after := Move(fs, d1, id, d2).value;
    assert d1 != d2;
    assert after[d1].Keys == fs[d1].Keys - {id};
    if d2 in fs {
      assert after[d2].Keys == fs[d2].Keys + {id};
    } else {
      assert after[d2].Keys == {id};
    }
  }

  /** Writing a file changes what is read at that path and nothing else. */
  lemma {:induction false} WriteFileFrame(fs: Fs, p: Path, text: string, q: Path)
    requires !p.ColumnPath?
    requires WriteFile(fs, p, text).Some?
    requires q != p
    ensures ReadFile(WriteFile(fs, p, text).value, q) == ReadFile(fs, q)
  {
  }
}
