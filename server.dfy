/** The task-board server (backend/server.js): the status table, the scan that
    turns the column directories into tasks, the handlers that read, create,
    move and update tasks, and the broadcast of change notices to the open
    WebSocket clients. */
module Server {
  import opened Wrappers
  import opened Text
  import opened Tree
  import opened Slug
  import opened Metadata
  import opened Description

  // ---------------------------------------------------------------- status table

  /** The status keys of `STATUS_DIRS`, in the order a scan visits them. */
  const StatusKeys: seq<string> :=
    ["ideas", "backlog", "todo", "doing", "review", "blog-publish", "done", "cancelled"]

  /** `STATUS_DIRS[status]`: the directory name of a column, if `status` is one. */
  function DirOf(status: string): (r: Option<string>)
    ensures r.Some? <==> status in StatusKeys
  {
    if status == "ideas" then Some("Ideas")
    else if status == "backlog" then Some("Backlog")
    else if status == "todo" then Some("Todo")
    else if status == "doing" then Some("Doing")
    else if status == "review" then Some("Review")
    else if status == "blog-publish" then Some("Blog-publish")
    else if status == "done" then Some("Done")
    else if status == "cancelled" then Some("Cancelled")
    else None
  }

  /** The name a scan and a file listing skip. */
  const Ignored: string := ".DS_Store"

  // ---------------------------------------------------------------- notices

  /** What the server broadcasts to its clients. */
  datatype Notice =
    | FileChange(event: string, path: string)
    | TaskCreated(status: string, id: string, title: string)
    | TaskMoved(id: string, fromStatus: string, toStatus: string)
    | TaskUpdated(status: string, id: string)

  /** The `type` field of a notice as the client receives it. */
  function Kind(n: Notice): (k: string)
    ensures n.FileChange? <==> k == "file_change"
    ensures n.TaskCreated? <==> k == "task_created"
    ensures n.TaskMoved? <==> k == "task_moved"
    ensures n.TaskUpdated? <==> k == "task_updated"
  {
    match n
    case FileChange(_, _) => "file_change"
    case TaskCreated(_, _, _) => "task_created"
    case TaskMoved(_, _, _) => "task_moved"
    case TaskUpdated(_, _) => "task_updated"
  }

  /** The `readyState` of a WebSocket connection. */
  datatype ReadyState = Connecting | Open | Closing | Closed

  /** What a client is sent by one broadcast: the notice if its connection is
      open, nothing otherwise. */
  function Delivery(state: ReadyState, n: Notice): (d: seq<Notice>)
    ensures d == [n] <==> state == Open
    ensures d == [] <==> state != Open
  {
    if state == Open then [n] else []
  }

  /** A connected WebSocket client and what it has been sent so far. */
  class Socket {
    var state: ReadyState
    var sent: seq<Notice>

    constructor (state0: ReadyState)
      ensures state == state0 && sent == []
    {
      state := state0;
      sent := [];
    }
  }

  // ---------------------------------------------------------------- scanned tasks

  /** A task as the scan reports it. */
  datatype Task = Task(
    id: string,
    title: string,
    description: string,
    tags: seq<string>,
    files: nat,
    fileNames: seq<string>,
    created: string,
    path: Path)

  /** The text of file `name` of a task directory; empty when there is no such
      file or it cannot be read (a folder of that name). */
  function FileText(entries: map<string, Entry>, name: string): (text: string)
    ensures name in entries && entries[name].File? ==> text == entries[name].text
    ensures !(name in entries && entries[name].File?) ==> text == ""
  {
    if name in entries && entries[name].File? then entries[name].text else ""
  }

  /** What `FileText` gives for a task directory is what reading the file at its
      path gives, and the empty text when that read fails. */
  lemma {:induction false} FileTextReads(fs: Fs, dir: string, id: string, name: string)
    requires Exists(fs, ItemPath(dir, id)) && fs[dir][id].Folder?
    ensures FileText(fs[dir][id].entries, name) ==
            match ReadFile(fs, EntryPath(dir, id, name))
            case Some(text) => text
            case None => ""
  {
  }

  /** The description a scan shows for a task whose description.md is empty or
      missing. */
  function Placeholder(id: string): (d: string)
    ensures d != []
  {
    "# " + ReplaceChar(id, '-', ' ') + "\n\nCreated via file system scan."
  }

  /** `names` lists the names of a directory listing other than `.DS_Store`, each
      once, in the order the directory listing gives them. */
  predicate ListsFiles(names: seq<string>, files: set<string>) {
    && (forall k :: 0 <= k < |names| ==> names[k] in files && names[k] != Ignored)
    && (forall k, l :: 0 <= k < l < |names| ==> names[k] != names[l])
    && (forall f :: f in files && f != Ignored ==> f in names)
  }

  /** The task the scan makes of task directory `id` of column directory `dir`,
      given the listing of its files. */
  function TaskOf(dir: string, id: string, entries: map<string, Entry>, names: seq<string>, today: string): (t: Task)
    ensures t.id == id && t.files == |t.fileNames| && t.description != []
    ensures t.path == ItemPath(dir, id)
    ensures FileText(entries, "description.md") != "" ==> t.description == FileText(entries, "description.md")
  {
    var text := FileText(entries, "description.md");
    Task(id, TitleOf(text, id), if text == "" then Placeholder(id) else text, TagsOf(text),
         |names|, names, CreatedOf(text, today), ItemPath(dir, id))
  }

  /** A task directory without a readable description is shown with its id (its
      hyphens turned into spaces) as title, the scan date as creation date, no
      tags and the placeholder text. */
  lemma {:induction false} MissingDescription(dir: string, id: string, entries: map<string, Entry>, names: seq<string>, today: string)
    requires FileText(entries, "description.md") == ""
    ensures var t := TaskOf(dir, id, entries, names, today);
            && t.title == ReplaceChar(id, '-', ' ')
            && t.created == today
            && t.tags == []
            && t.description == Placeholder(id)
  {
    assert TitleAt("", 0).None?;
    assert CreatedAt("", 0).None?;
    assert TagsAt("", 0).None?;
    assert First(TitleMatches(""), 1).None?;
    assert First(CreatedMatches(""), 1).None?;
    assert First(TagsMatches(""), 1).None?;
  }

  /** An item of a column directory that the scan turns into a task. */
  predicate IsTaskName(column: map<string, Item>, id: string) {
    id in column && id != Ignored && column[id].Folder?
  }

  /** `t` is what the scan makes of a task directory of column directory `dir`. */
  predicate IsTaskOf(t: Task, fs: Fs, dir: string, today: string) {
    && dir in fs && IsTaskName(fs[dir], t.id)
    && ListsFiles(t.fileNames, fs[dir][t.id].entries.Keys)
    && t == TaskOf(dir, t.id, fs[dir][t.id].entries, t.fileNames, today)
  }

  /** The ids of a sequence of tasks. */
  function Ids(ts: seq<Task>): (ids: seq<string>)
    ensures |ids| == |ts| && forall k :: 0 <= k < |ts| ==> ids[k] == ts[k].id
  {
    seq(|ts|, k requires 0 <= k < |ts| => ts[k].id)
  }

  /** `ts` is a scan of column directory `dir`: one task per task directory, in
      the order the directory listing gives them, and none when the column
      directory is missing. */
  ghost predicate ListsTasks(ts: seq<Task>, fs: Fs, dir: string, today: string) {
    && (dir !in fs ==> ts == [])
    && (forall k :: 0 <= k < |ts| ==> IsTaskOf(ts[k], fs, dir, today))
    && (forall k, l :: 0 <= k < l < |ts| ==> ts[k].id != ts[l].id)
    && (dir in fs ==> forall id :: IsTaskName(fs[dir], id) ==> id in Ids(ts))
  }

  /** The scan of column directory `dir` has listed every task directory not in
      `rest`, each once. */
  ghost predicate ScannedSoFar(ts: seq<Task>, fs: Fs, dir: string, today: string, rest: set<string>) {
    && dir in fs
    && (forall k :: 0 <= k < |ts| ==> IsTaskOf(ts[k], fs, dir, today) && ts[k].id !in rest)
    && (forall k, l :: 0 <= k < l < |ts| ==> ts[k].id != ts[l].id)
    && (forall id :: IsTaskName(fs[dir], id) && id !in rest ==> id in Ids(ts))
  }

  /** Listing a task directory keeps the scan so far. */
  lemma {:induction false} ScanStep(ts: seq<Task>, t: Task, fs: Fs, dir: string, today: string, rest: set<string>)
    requires ScannedSoFar(ts, fs, dir, today, rest)
    requires IsTaskOf(t, fs, dir, today) && t.id in rest
    ensures ScannedSoFar(ts + [t], fs, dir, today, rest - {t.id})
  {
    var ts' := ts + [t];
    assert Ids(ts') == Ids(ts) + [t.id];
    forall k | 0 <= k < |ts'| ensures IsTaskOf(ts'[k], fs, dir, today) && ts'[k].id !in rest - {t.id} {
      if k < |ts| {
        assert ts'[k] == ts[k];
      }
    }
    forall k, l | 0 <= k < l < |ts'| ensures ts'[k].id != ts'[l].id {
      if l < |ts| {
        assert ts'[k] == ts[k] && ts'[l] == ts[l];
      } else {
        assert ts'[k] == ts[k];
      }
    }
    forall id | IsTaskName(fs[dir], id) && id !in rest - {t.id} ensures id in Ids(ts') {
      if id != t.id {
        assert id in Ids(ts);
      }
    }
  }

  /** Passing over an item that is not a task directory keeps the scan so far. */
  lemma {:induction false} ScanSkip(ts: seq<Task>, item: string, fs: Fs, dir: string, today: string, rest: set<string>)
    requires ScannedSoFar(ts, fs, dir, today, rest)
    requires !IsTaskName(fs[dir], item)
    ensures ScannedSoFar(ts, fs, dir, today, rest - {item})
  {
  }

  // ---------------------------------------------------------------- replies

  /** The reply to a request for one task. */
  datatype Detail = Detail(
    id: string,
    status: string,
    description: string,
    feedback: string,
    files: nat,
    fileNames: seq<string>,
    path: Path)

  /** The reply to a request to create a task. */
  datatype NewTask = NewTask(
    id: string,
    title: string,
    status: string,
    description: string,
    files: nat,
    created: string,
    path: Path)

  /** A task directory whose reply can be read: neither of its two text files is
      a folder. */
  predicate Readable(item: Item) {
    && item.Folder?
    && !("description.md" in item.entries && item.entries["description.md"].SubDir?)
    && !("feedback.md" in item.entries && item.entries["feedback.md"].SubDir?)
  }

  // ---------------------------------------------------------------- effects on the tree

  /** The tree after a successful relocation of task `id` from column directory
      `d1` to `d2`, with the first `Status:` line of its description, if it has a
      readable one, rewritten to `word`. None when the move is refused. */
  function MovedTree(fs: Fs, d1: string, id: string, d2: string, word: string): (r: Option<Fs>)
    requires Exists(fs, ItemPath(d1, id))
    ensures r.None? <==> Exists(fs, ItemPath(d2, id))
  {
    match Move(fs, d1, id, d2)
    case None => None
    case Some(moved) =>
      var p := EntryPath(d2, id, "description.md");
      match ReadFile(moved, p)
      case Some(text) => WriteFile(moved, p, RewriteStatus(text, word))
      case None => Some(moved)
  }

  /** A task that moves keeps its name and its files: it is gone from the old
      column, its directory holds the same names in the new one, its description
      (when it has a readable one) has its status line rewritten, and every other
      file, task and column is as it was. */
  lemma {:induction false} MovedTreeShape(fs: Fs, d1: string, id: string, d2: string, word: string)
    requires Exists(fs, ItemPath(d1, id))
    requires MovedTree(fs, d1, id, d2, word).Some?
    ensures var after := MovedTree(fs, d1, id, d2, word).value;
            && !Exists(after, ItemPath(d1, id))
            && Exists(after, ItemPath(d2, id))
            && (fs[d1][id].Plain? ==> after[d2][id] == fs[d1][id])
            && (fs[d1][id].Folder? ==>
                  && after[d2][id].Folder?
                  && after[d2][id].entries.Keys == fs[d1][id].entries.Keys
                  && (forall e :: e in fs[d1][id].entries && e != "description.md" ==>
                        after[d2][id].entries[e] == fs[d1][id].entries[e])
                  && ReadFile(after, EntryPath(d2, id, "description.md"))
                     == match ReadFile(fs, EntryPath(d1, id, "description.md"))
                        case Some(text) => Some(RewriteStatus(text, word))
                        case None => None)
            && (forall d, i :: d in fs && i in fs[d] && (d, i) != (d1, id) ==>
                  d in after && i in after[d] && after[d][i] == fs[d][i])
  {
    MoveRelocates(fs, d1, id, d2);
  }

  /** Moving a task whose description is still the one it was created with, in
      a column whose key is one word, leaves the description it would have been
      created with in the new column. */
  lemma {:induction false} MoveNewTask(fs: Fs, from: string, id: string, to: string, title: string, today: string)
    requires from in StatusKeys && to in StatusKeys
    requires Exists(fs, ItemPath(DirOf(from).value, id))
    requires fs[DirOf(from).value][id] == Folder(map["description.md" := File(Template(from, title, today))])
    requires MovedTree(fs, DirOf(from).value, id, DirOf(to).value, Capitalize(to)).Some?
    requires IsIsoDate(today) && !CiContains(title, "status:")
    requires forall i :: 0 <= i < |from| ==> IsWordChar(from[i])
    ensures var after := MovedTree(fs, DirOf(from).value, id, DirOf(to).value, Capitalize(to)).value;
            ReadFile(after, EntryPath(DirOf(to).value, id, "description.md")) == Some(Template(to, title, today))
  {
    var d1, d2 := DirOf(from).value, DirOf(to).value;
    MovedTreeShape(fs, d1, id, d2, Capitalize(to));
    assert ReadFile(fs, EntryPath(d1, id, "description.md")) == Some(Template(from, title, today));
    TemplateMove(from, to, title, today);
  }

  /** The tree after creating a task with id `id` in column directory `dir`:
      the task directory is made if needed and its description.md written. An
      empty id makes the description.md a file of the column directory itself. */
  function CreatedTree(fs: Fs, dir: string, id: string, text: string): (r: Option<Fs>)
    ensures r.None? <==> if id == "" then dir in fs && "description.md" in fs[dir] && fs[dir]["description.md"].Folder?
                         else (Exists(fs, ItemPath(dir, id)) && fs[dir][id].Plain?) ||
                              (Exists(fs, EntryPath(dir, id, "description.md")) && fs[dir][id].entries["description.md"].SubDir?)
    ensures r.Some? ==> ReadFile(r.value, FilePath(dir, id, "description.md")) == Some(text)
    ensures r.Some? && id != "" ==>
              r.value[dir][id] == Folder((if Exists(fs, ItemPath(dir, id)) then fs[dir][id].entries else map[])["description.md" := File(text)])
    ensures r.Some? ==> var item := if id == "" then "description.md" else id;
            && (forall d, i :: d in fs && i in fs[d] && (d, i) != (dir, item) ==>
                  d in r.value && i in r.value[d] && r.value[d][i] == fs[d][i])
            && (forall d, i :: d in r.value && i in r.value[d] && (d, i) != (dir, item) ==> d in fs && i in fs[d])
  {
    match EnsureDir(fs, TaskPath(dir, id))
    case None => None
    case Some(made) => WriteFile(made, FilePath(dir, id, "description.md"), text)
  }

  /** Creating the same task twice leaves the tree as creating it once: the
      directory is made only if missing and the description is overwritten. */
  lemma {:induction false} CreateIdempotent(fs: Fs, dir: string, id: string, text: string)
    requires CreatedTree(fs, dir, id, text).Some?
    ensures CreatedTree(CreatedTree(fs, dir, id, text).value, dir, id, text) == CreatedTree(fs, dir, id, text)
  {
    var once := CreatedTree(fs, dir, id, text).value;
    var p := FilePath(dir, id, "description.md");
    assert IsDirectory(once, TaskPath(dir, id));
    assert EnsureDir(once, TaskPath(dir, id)) == Some(once);
    if id == "" {
      var column := once[dir];
      assert column["description.md"] == Plain(text);
      assert column["description.md" := Plain(text)] == column;
      assert once[dir := column] == once;
    } else {
      var item := once[dir][id];
      assert item.entries["description.md"] == File(text);
      assert item.entries["description.md" := File(text)] == item.entries;
      assert once[dir][id := item] == once[dir];
      assert once[dir := once[dir]] == once;
    }
  }

  /** The directory of a task created with a one-line title that does not start
      with whitespace scans back with that title and the creation date. */
  lemma {:induction false} CreateScansBack(entries: map<string, Entry>, status: string, title: string, today: string,
                                           dir: string, id: string, names: seq<string>, later: string)
    requires FileText(entries, "description.md") == Template(status, title, today)
    requires title != [] && !IsSpace(title[0])
    requires forall i :: 0 <= i < |title| ==> !IsLineTerminator(title[i])
    requires IsIsoDate(today) && !CiContains(title, "created:")
    ensures TaskOf(dir, id, entries, names, later).title == title
    ensures TaskOf(dir, id, entries, names, later).created == today
  {
    TemplateTitle(status, title, today, id);
    TemplateCreated(status, title, today, later);
  }

  /** The tree after writing `text` to file `name` of task `id`, when that works. */
  function UpdatedTree(fs: Fs, dir: string, id: string, name: string, text: string): (r: Option<Fs>)
    requires id != ""
    ensures r.Some? ==> ReadFile(r.value, EntryPath(dir, id, name)) == Some(text)
    ensures Exists(fs, ItemPath(dir, id)) && fs[dir][id].Folder? && !(name in fs[dir][id].entries && fs[dir][id].entries[name].SubDir?) ==> r.Some?
  {
    WriteFile(fs, EntryPath(dir, id, name), text)
  }

  // ---------------------------------------------------------------- listing

  /** `files.filter(f => f !== '.DS_Store')` on a directory listing, in the
      order the listing gives (which the model leaves open). */
  method ListFiles(files: set<string>) returns (names: seq<string>)
    ensures ListsFiles(names, files)
  {
    names := [];
    var rest := files;
    while rest != {}
      invariant rest <= files
      invariant forall k :: 0 <= k < |names| ==> names[k] in files && names[k] != Ignored && names[k] !in rest
      invariant forall k, l :: 0 <= k < l < |names| ==> names[k] != names[l]
      invariant forall f :: f in files && f != Ignored && f !in rest ==> f in names
      decreases rest
    {
      var f :| f in rest;
      rest := rest - {f};
      if f != Ignored {
        names := names + [f];
      }
    }
  }

  /** The tasks board server: the tree under the tasks base path and the
      connected WebSocket clients. */
  class TaskServer {
    var fs: Fs
    var clients: seq<Socket>

    /** Each client is connected once. */
    predicate Valid()
      reads this
    {
      forall i, j :: 0 <= i < j < |clients| ==> clients[i] != clients[j]
    }

    constructor (fs0: Fs, clients0: seq<Socket>)
      requires forall i, j :: 0 <= i < j < |clients0| ==> clients0[i] != clients0[j]
      ensures Valid() && fs == fs0 && clients == clients0
    {
      fs := fs0;
      clients := clients0;
    }

    /** `broadcast`: sends `n` to every client whose connection is open, and to
        no other. */
    method Broadcast(n: Notice)
      requires Valid()
      modifies set c | c in clients
      ensures forall c | c in clients :: c.state == old(c.state) && c.sent == old(c.sent) + Delivery(c.state, n)
    {
      var i := 0;
      while i < |clients|
        invariant 0 <= i <= |clients|
        invariant forall c | c in clients :: c.state == old(c.state)
        invariant forall j :: 0 <= j < i ==> clients[j].sent == old(clients[j].sent) + Delivery(clients[j].state, n)
        invariant forall j :: i <= j < |clients| ==> clients[j].sent == old(clients[j].sent)
      {
        var c := clients[i];
        if c.state == Open {
          c.sent := c.sent + [n];
        }
        i := i + 1;
      }
    }

    /** The watcher's handler: every change it reports becomes one `file_change`
        notice. */
    method OnWatchEvent(event: string, path: string)
      requires Valid()
      modifies set c | c in clients
      ensures forall c | c in clients ::
                c.state == old(c.state) && c.sent == old(c.sent) + Delivery(c.state, FileChange(event, path))
    {
      Broadcast(FileChange(event, path));
    }

    /** `scanTasks`: one entry per status key, each the scan of that column. */
    method ScanTasks(today: string) returns (tasks: map<string, seq<Task>>)
      ensures forall s :: s in tasks <==> s in StatusKeys
      ensures forall s | s in tasks :: ListsTasks(tasks[s], fs, DirOf(s).value, today)
    {
      tasks := map[];
      var i := 0;
      while i < |StatusKeys|
        invariant 0 <= i <= |StatusKeys|
        invariant forall s :: s in tasks <==> s in StatusKeys[..i]
        invariant forall s | s in tasks :: s in StatusKeys && ListsTasks(tasks[s], fs, DirOf(s).value, today)
      {
        var status := StatusKeys[i];
        var column := ScanColumn(DirOf(status).value, today);
        tasks := tasks[status := column];
        i := i + 1;
      }
    }

    /** The tasks of one column directory: every item that is a directory other
        than `.DS_Store`, in the order the directory listing gives them. */
    method ScanColumn(dir: string, today: string) returns (column: seq<Task>)
      ensures ListsTasks(column, fs, dir, today)
    {
      column := [];
      if Exists(fs, ColumnPath(dir)) {
        var rest := ReadDir(fs, ColumnPath(dir)).value;
        while rest != {}
          invariant rest <= fs[dir].Keys
          invariant ScannedSoFar(column, fs, dir, today, rest)
          decreases rest
        {
          var item :| item in rest;
          if item != Ignored && IsDirectory(fs, ItemPath(dir, item)) {
            var task := ReadTask(dir, item, today);
            ScanStep(column, task, fs, dir, today, rest);
            column := column + [task];
          } else {
            ScanSkip(column, item, fs, dir, today, rest);
          }
          rest := rest - {item};
        }
      }
    }

    /** The task the scan makes of one task directory. A description.md that
        cannot be read leaves the description empty. */
    method ReadTask(dir: string, id: string, today: string) returns (task: Task)
      requires dir in fs && IsTaskName(fs[dir], id)
      ensures task.id == id && IsTaskOf(task, fs, dir, today)
    {
      var names := ListFiles(ReadDir(fs, ItemPath(dir, id)).value);
      var description := "";
      var p := EntryPath(dir, id, "description.md");
      if Exists(fs, p) {
        match ReadFile(fs, p)
        case Some(text) => description := text;
        case None =>
      }
      var title := TitleOf(description, id);
      var tags := TagsOf(description);
      var created := CreatedOf(description, today);
      task := Task(id, title, if description == "" then Placeholder(id) else description, tags,
                   |names|, names, created, ItemPath(dir, id));
    }

    /** `GET /api/tasks/:status/:id`. */
    method GetTask(status: string, id: string) returns (r: Outcome<Detail>)
      requires id != ""
      ensures DirOf(status).None? ==> r == InvalidStatus
      ensures DirOf(status).Some? && !Exists(fs, ItemPath(DirOf(status).value, id)) ==> r == NotFound
      ensures DirOf(status).Some? && Exists(fs, ItemPath(DirOf(status).value, id)) ==>
                (r.Ok? <==> Readable(fs[DirOf(status).value][id])) && (r.IoFailure? <==> !r.Ok?)
      ensures r.Ok? ==> var dir := DirOf(status).value;
                        var entries := fs[dir][id].entries;
                        && r.value.id == id && r.value.status == status
                        && r.value.description == FileText(entries, "description.md")
                        && r.value.feedback == FileText(entries, "feedback.md")
                        && ListsFiles(r.value.fileNames, entries.Keys)
                        && r.value.files == |r.value.fileNames|
                        && r.value.path == ItemPath(dir, id)
    {
      var dir := DirOf(status);
      if dir.None? {
        return InvalidStatus;
      }
      var taskPath := ItemPath(dir.value, id);
      if !Exists(fs, taskPath) {
        return NotFound;
      }
      var description := "";
      var descriptionPath := EntryPath(dir.value, id, "description.md");
      if Exists(fs, descriptionPath) {
        match ReadFile(fs, descriptionPath)
        case Some(text) => description := text;
        case None => return IoFailure;
      }
      var feedback := "";
      var feedbackPath := EntryPath(dir.value, id, "feedback.md");
      if Exists(fs, feedbackPath) {
        match ReadFile(fs, feedbackPath)
        case Some(text) => feedback := text;
        case None => return IoFailure;
      }
      match ReadDir(fs, taskPath)
      case None => return IoFailure;
      case Some(files) =>
        var names := ListFiles(files);
        return Ok(Detail(id, status, description, feedback, |names|, names, taskPath));
    }

    /** `POST /api/tasks/:status`: makes the task directory named after the
        slug of `title` (if missing), writes its description and tells the
        clients. `fold` stands for the accent replacement of the slug. */
    method CreateTask(status: string, title: string, today: string, fold: char -> string) returns (r: Outcome<NewTask>)
      requires Valid()
      modifies this, set c | c in clients
      ensures clients == old(clients)
      ensures DirOf(status).None? ==> r == InvalidStatus && fs == old(fs)
      ensures DirOf(status).Some? ==>
                var dir := DirOf(status).value;
                var id := Slugify(title, fold);
                && (r.Ok? <==> CreatedTree(old(fs), dir, id, Template(status, title, today)).Some?)
                && (r.Ok? ==> fs == CreatedTree(old(fs), dir, id, Template(status, title, today)).value
                              && r.value == NewTask(id, title, status, Template(status, title, today), 1, today, TaskPath(dir, id)))
                && (EnsureDir(old(fs), TaskPath(dir, id)).None? ==> r == IoFailure && fs == old(fs))
                && (EnsureDir(old(fs), TaskPath(dir, id)).Some? && !r.Ok? ==>
                      r == IoFailure && fs == EnsureDir(old(fs), TaskPath(dir, id)).value)
      ensures forall c | c in clients :: c.state == old(c.state)
      ensures forall c | c in clients ::
                c.sent == old(c.sent) + (if r.Ok? then Delivery(c.state, TaskCreated(status, r.value.id, title)) else [])
    {
      var dir := DirOf(status);
      if dir.None? {
        return InvalidStatus;
      }
      var id := Slugify(title, fold);
      var taskPath := TaskPath(dir.value, id);
      var made := EnsureDir(fs, taskPath);
      if made.None? {
        return IoFailure;
      }
      fs := made.value;
      var content := Template(status, title, today);
      var written := WriteFile(fs, FilePath(dir.value, id, "description.md"), content);
      if written.None? {
        return IoFailure;
      }
      fs := written.value;
      Broadcast(TaskCreated(status, id, title));
      return Ok(NewTask(id, title, status, content, 1, today, taskPath));
    }

    /** `PUT /api/tasks/:fromStatus/:id/move/:toStatus`: relocates the task
        directory, rewrites the `Status:` line of its description and tells the
        clients. */
    method MoveTask(fromStatus: string, id: string, toStatus: string) returns (r: Outcome<()>)
      requires Valid()
      requires id != ""
      modifies this, set c | c in clients
      ensures clients == old(clients)
      ensures DirOf(fromStatus).None? || DirOf(toStatus).None? ==> r == InvalidStatus && fs == old(fs)
      ensures DirOf(fromStatus).Some? && DirOf(toStatus).Some? ==>
                var d1, d2 := DirOf(fromStatus).value, DirOf(toStatus).value;
                && (!Exists(old(fs), ItemPath(d1, id)) ==> r == NotFound && fs == old(fs))
                && (Exists(old(fs), ItemPath(d1, id)) ==> MoveTold(old(fs), fs, d1, id, d2, Capitalize(toStatus), r))
      ensures forall c | c in clients :: c.state == old(c.state)
      ensures forall c | c in clients ::
                c.sent == old(c.sent) + (if r.Ok? then Delivery(c.state, TaskMoved(id, fromStatus, toStatus)) else [])
    {
      var d1, d2 := DirOf(fromStatus), DirOf(toStatus);
      if d1.None? || d2.None? {
        return InvalidStatus;
      }
      if !Exists(fs, ItemPath(d1.value, id)) {
        return NotFound;
      }
      r := Relocate(d1.value, id, d2.value, Capitalize(toStatus));
      if r.Ok? {
        Broadcast(TaskMoved(id, fromStatus, toStatus));
      }
    }

    /** The file work of a move: `fs.move`, then the read, rewrite and write of
        the moved description.md when there is one. */
    method Relocate(d1: string, id: string, d2: string, word: string) returns (r: Outcome<()>)
      requires Exists(fs, ItemPath(d1, id))
      modifies this
      ensures clients == old(clients)
      ensures MoveTold(old(fs), fs, d1, id, d2, word, r)
    {
      var moved := Move(fs, d1, id, d2);
      if moved.None? {
        return IoFailure;
      }
      fs := moved.value;
      var p := EntryPath(d2, id, "description.md");
      if Exists(fs, p) {
        var text := ReadFile(fs, p);
        if text.None? {
          return IoFailure;
        }
        fs := WriteFile(fs, p, RewriteStatus(text.value, word)).value;
      }
      return Ok(());
    }

    /** `PUT /api/tasks/:status/:id/description`. */
    method UpdateDescription(status: string, id: string, text: string) returns (r: Outcome<()>)
      requires Valid()
      requires id != ""
      modifies this, set c | c in clients
      ensures clients == old(clients)
      ensures DirOf(status).None? ==> r == InvalidStatus && fs == old(fs)
      ensures DirOf(status).Some? ==> UpdateTold(old(fs), fs, DirOf(status).value, id, "description.md", text, r)
      ensures forall c | c in clients :: c.state == old(c.state)
      ensures forall c | c in clients ::
                c.sent == old(c.sent) + (if r.Ok? then Delivery(c.state, TaskUpdated(status, id)) else [])
    {
      r := UpdateFile(status, id, "description.md", text);
    }

    /** `PUT /api/tasks/:status/:id/feedback`. */
    method UpdateFeedback(status: string, id: string, text: string) returns (r: Outcome<()>)
      requires Valid()
      requires id != ""
      modifies this, set c | c in clients
      ensures clients == old(clients)
      ensures DirOf(status).None? ==> r == InvalidStatus && fs == old(fs)
      ensures DirOf(status).Some? ==> UpdateTold(old(fs), fs, DirOf(status).value, id, "feedback.md", text, r)
      ensures forall c | c in clients :: c.state == old(c.state)
      ensures forall c | c in clients ::
                c.sent == old(c.sent) + (if r.Ok? then Delivery(c.state, TaskUpdated(status, id)) else [])
    {
      r := UpdateFile(status, id, "feedback.md", text);
    }

    /** Writes `text` to file `name` of an existing task and tells the clients. */
    method UpdateFile(status: string, id: string, name: string, text: string) returns (r: Outcome<()>)
      requires Valid()
      requires id != ""
      modifies this, set c | c in clients
      ensures clients == old(clients)
      ensures DirOf(status).None? ==> r == InvalidStatus && fs == old(fs)
      ensures DirOf(status).Some? ==> UpdateTold(old(fs), fs, DirOf(status).value, id, name, text, r)
      ensures forall c | c in clients :: c.state == old(c.state)
      ensures forall c | c in clients ::
                c.sent == old(c.sent) + (if r.Ok? then Delivery(c.state, TaskUpdated(status, id)) else [])
    {
      var dir := DirOf(status);
      if dir.None? {
        return InvalidStatus;
      }
      if !Exists(fs, ItemPath(dir.value, id)) {
        return NotFound;
      }
      var written := WriteFile(fs, EntryPath(dir.value, id, name), text);
      if written.None? {
        return IoFailure;
      }
      fs := written.value;
      Broadcast(TaskUpdated(status, id));
      return Ok(());
    }
  }

  /** A task directory whose description.md is a folder: a move can relocate it
      but then fails to read its description. */
  predicate DescriptionIsFolder(item: Item) {
    item.Folder? && "description.md" in item.entries && item.entries["description.md"].SubDir?
  }

  /** How a move of existing task `id` from column directory `d1` to `d2` ends:
      refused with nothing changed when the destination exists; relocated but
      failed when the description is a folder; otherwise done, the tree being
      the moved tree. */
  predicate MoveTold(before: Fs, after: Fs, d1: string, id: string, d2: string, word: string, r: Outcome<()>)
    requires Exists(before, ItemPath(d1, id))
  {
    match MovedTree(before, d1, id, d2, word)
    case None => r == IoFailure && after == before
    case Some(moved) =>
      && after == moved
      && (r.Ok? <==> !DescriptionIsFolder(before[d1][id]))
      && (!r.Ok? ==> r == IoFailure)
  }

  /** How an update of file `name` of task `id` in column directory `dir` ends:
      not found (nothing written) when the task is missing, the written tree when
      the write works, and a failure with nothing written otherwise. */
  predicate UpdateTold(before: Fs, after: Fs, dir: string, id: string, name: string, text: string, r: Outcome<()>)
    requires id != ""
  {
    && (!Exists(before, ItemPath(dir, id)) ==> r == NotFound && after == before)
    && (Exists(before, ItemPath(dir, id)) ==>
          match UpdatedTree(before, dir, id, name, text)
          case Some(written) => r == Ok(()) && after == written
          case None => r == IoFailure && after == before)
  }
}
