# neo-kanban, modelled in Dafny

neo-kanban is a Kanban board kept as plain folders. A base directory holds one
directory per column (`Ideas`, `Backlog`, `Todo`, `Doing`, `Review`,
`Blog-publish`, `Done`, `Cancelled`). Each task is a directory in a column
directory, holding a `description.md` (and maybe `feedback.md` and other files).

An Express server (`backend/server.js`) does the following:
- it scans the tree into tasks, reading the title, the creation date and the
  tags out of each description;
- it creates a task directory from a title, deriving a slug and writing a
  description template;
- it moves a task directory between columns and rewrites the `Status:` line of
  its description;
- it overwrites a task's description or feedback file;
- it broadcasts a notice after each change to every open WebSocket client.

The React client (`frontend/src/App.js`) shows seven of the eight columns.
- It moves a card at once on drag and drop, then sends the move request.
- It lets the keyboard walk the selection across the board.
- It reloads on three of the four notice kinds.

The task dialog (`frontend/src/components/TaskModal.js`) does three things:
- it shows a file icon per extension;
- it builds a mock file list from the file count;
- it keeps a small edit state for the description.

The Dafny modules follow that structure:

- `Wrappers`: `Option`, and `Outcome`, which stands for a reply.
  - `Ok` stands for the success reply.
  - `InvalidStatus` stands for HTTP 400.
  - `NotFound` stands for HTTP 404.
  - `IoFailure` stands for a thrown file-system error, which the server answers with HTTP 500.
- `Text`: the character classes and string functions the JavaScript code relies on.
  - `\s`, `\w` and the line terminators.
  - `toLowerCase` and `trim`.
  - `replace(/-/g, ' ')`.
  - Case-insensitive prefix tests.
- `Slug`: the id derivation of the create handler.
- `Metadata`: the three regular expressions of the scan, as hand-written matchers, and the tag rules.
  - `/^#\s+(.+)/m`.
  - `/Created:\s*(\d{4}-\d{2}-\d{2})/i`.
  - `/Tags:\s*(.+)/i` with the `/#\w+/g` fallback.
  - A search `First` over a table of per-position matches gives the leftmost match.
- `Description`: the description template, the `Status:` rewrite of a move, and what a scan reads back from a fresh template.
- `Tree`: the file system under the tasks base path as a map of column directories, with the `fs-extra` calls the server makes.
  - `pathExists`, `readFile`, `readdir`, `writeFile`, `ensureDir` and `move`.
- `Server`: the server state as a class `TaskServer` (the tree and the connected sockets).
  - Its methods are the handlers.
  - The scan is a pair of loops proved against `ListsTasks`.
- `Client`: the board page as a class `Board` (the columns and the selection).
  - The drag-and-drop splice.
  - The keyboard navigation loops.
  - The reload predicate and the create guard.
- `Modal`: the task dialog: the icon lookup, the file-list loop, and the edit state as a class `Editor`.

The following properties are proved about the model.

Slugs:
- A slug is made of `a-z`, `0-9` and `-`, with no `--`, and no hyphen at either end.
- Slugging is idempotent.

Metadata and templates:
- A template scans back to the title and the creation date it was made with.
- A move rewrites the template's status line to the new status.
- A status with a hyphen keeps its tail: `blog-publish` moved to `done` reads `Done-publish`.
- An empty title scans back as the creation line.

Moves and creation:
- A moved task keeps its name and its files, and nothing else changes.
- Creating a task twice is the same as creating it once.

Broadcast:
- A broadcast reaches exactly the open sockets.

Client:
- A drop keeps every card, and dragging back undoes it.
- The keyboard selection goes to the nearest column with tasks and never leaves a column's range.

Dialog:
- The icon lookup ignores the letter case of the extension.
- The mock file list has the promised shape.
- Escape, Cancel and Save leave the edit state as the dialog promises.

## Model

| member | source | states |
|---|---|---|
| Server.DirOf | backend/server.js:13-22 | a status has a directory exactly when it is one of the eight status keys |
| Server.Kind | backend/server.js:60 | each notice kind has its own `type` string, in both directions |
| Server.TaskServer.Broadcast | backend/server.js:37-43 | every connected client gets its old messages followed by the notice if open, and no state changes |
| Server.TaskServer.OnWatchEvent | backend/server.js:57-61 | each watcher event becomes one `file_change` notice, delivered as `Broadcast` delivers |
| Server.ListFiles | backend/server.js:89-91 | the listed names are exactly the directory's names other than `.DS_Store`, each once |
| Server.FileTextReads | backend/server.js:94-96 | the text a scan takes for a file of a task directory is what reading the file at its path gives, and the empty text when that read fails |
| Server.Placeholder | backend/server.js:118 | the placeholder description is never empty |
| Server.TaskOf | backend/server.js:115-124 | a task keeps its id and its path, its file count is the length of its name list, and its description is the file's text when that text is non-empty and never empty otherwise |
| Server.MissingDescription | backend/server.js:117-118 | with no readable description, the title is the id with hyphens as spaces, the date is today, there are no tags, and the description is the placeholder |
| Server.ScanStep | backend/server.js:75-125 | adding the task made of a task directory keeps the scan invariant |
| Server.ScanSkip | backend/server.js:76-81 | passing over `.DS_Store` or a plain file keeps the scan invariant |
| Server.TaskServer.ScanColumn | backend/server.js:72-127 | the result lists one task per directory of the column, no two with the same id, each as `TaskOf` makes it |
| Server.TaskServer.ReadTask | backend/server.js:82-124 | the task read from a task directory is the one `TaskOf` makes of it |
| Server.TaskServer.ScanTasks | backend/server.js:64-134 | the result has exactly the eight status keys, each the scan of its column directory, and an empty list when that directory is missing |
| Server.TaskServer.GetTask | backend/server.js:150-194 | an unknown status is invalid; a missing task directory is not found; otherwise the reply carries both file texts and the file listing, and is a failure exactly when the task is a plain file or one of its text files is a folder |
| Server.CreatedTree | backend/server.js:214-251 | creation fails exactly when a plain file stands where the task directory goes or a folder where its description goes; after success the description reads back as the template, the task directory holds its old entries and the description (the description alone when it is new), every other item of every column is unchanged, and nothing else is added |
| Server.CreateIdempotent | backend/server.js:218-251 | creating the same task again leaves the tree as creating it once |
| Server.CreateScansBack | backend/server.js:102-122 | scanning a freshly created task gives back its title and its creation date |
| Server.TaskServer.CreateTask | backend/server.js:197-268 | an unknown status is invalid and writes nothing; otherwise the task directory named by the slug is ensured, the template is written, `task_created` is broadcast, and the reply names id, title, status, template, one file and today; a file in the way fails |
| Server.MovedTree | backend/server.js:289-301 | a move is refused exactly when the destination already exists |
| Server.MovedTreeShape | backend/server.js:289-301 | after a move the task is gone from its old column and present in the new one with the same file names; its description is rewritten; every other file and task is unchanged |
| Server.MoveNewTask | backend/server.js:290-301 | moving an untouched new task leaves exactly the template of the new column |
| Server.TaskServer.Relocate | backend/server.js:290-301 | the tree after the move and rewrite is `MovedTree`'s, and the move fails only when the destination exists or the description is a folder |
| Server.TaskServer.MoveTask | backend/server.js:271-310 | an unknown from- or to-status is invalid and a missing task is not found, both with nothing changed; otherwise the move is as `Relocate` states, and `task_moved` is broadcast exactly on success |
| Server.UpdatedTree | backend/server.js:323-330 | a successful write reads back as the new text, and the write succeeds whenever the task is a directory and the name is not a folder |
| Server.TaskServer.UpdateFile | backend/server.js:318-334 | an unknown status is invalid and a missing task is not found, both with nothing written; otherwise the file holds exactly the new text and `task_updated` is broadcast |
| Server.TaskServer.UpdateDescription | backend/server.js:313-339 | as `UpdateFile` for `description.md` |
| Server.TaskServer.UpdateFeedback | backend/server.js:342-368 | as `UpdateFile` for `feedback.md` |
| Server.TaskServer.constructor | backend/server.js:29-34 | the server starts with the given tree and distinct clients |
| Server.Socket.constructor | backend/server.js:31-34 | a new connection has been sent nothing |
| Tree.TaskPathInjective | backend/server.js:214 | distinct tasks have distinct paths: only the empty id names the column directory itself |
| Tree.FileInTask | backend/server.js:215 | a task's file lies in the task's directory; for the empty id that is the column directory, where the file takes the place of an item named like it |
| Tree.ReadFile | backend/server.js:167-170 | reading succeeds exactly on an existing path that is not a directory |
| Tree.ReadDir | backend/server.js:177-178 | listing succeeds exactly on a directory and gives a task directory's names |
| Tree.WriteFile | backend/server.js:251 | writing succeeds exactly when the parent is a directory and the path is not, and the file then reads back as the text |
| Tree.EnsureDir | backend/server.js:218 | afterwards the directory is there; an existing one is left as it is; it fails exactly when a file is in the way; every existing item is unchanged, and the only things added are the directory itself, empty, and its column directory |
| Tree.Move | backend/server.js:290 | a move fails exactly when the destination exists |
| Tree.MoveRelocates | backend/server.js:290 | the item leaves its column and arrives unchanged under the same name, and every other item stays where it was |
| Tree.MoveKeepsCount | backend/server.js:290 | the two columns hold as many items together after a move as before |
| Tree.WriteFileFrame | backend/server.js:300 | writing one file changes what any other path reads to nothing |
| Slug.Sanitize | backend/server.js:210 | each character is kept if it is in `[a-z0-9]` and becomes `-` otherwise |
| Slug.Collapse | backend/server.js:211 | no `--` remains; the ends and the character set are kept; text without `--` is unchanged |
| Slug.TrimHyphens | backend/server.js:212 | with no `--`, removing one hyphen at each end gives a slug, and a slug is unchanged |
| Slug.Slugify | backend/server.js:208-212 | every derived id is a slug: only `[a-z0-9-]`, no `--`, no hyphen at either end |
| Slug.FoldAccentsKeeps | backend/server.js:209 | the accent step leaves text outside its class unchanged, whatever it maps to |
| Slug.SanitizeKeeps | backend/server.js:210 | text of `[a-z0-9-]` passes the sanitising step unchanged |
| Slug.SlugifyKeepsSlug | backend/server.js:208-212 | a slug derives to itself |
| Slug.SlugifyIdempotent | backend/server.js:208-212 | deriving an id from a derived id gives it back |
| Slug.SlugifyEmpty | backend/server.js:208-212 | a title with no `[a-z0-9]` once lower-cased gives the empty id |
| Slug.SlugifyExample | backend/server.js:208-212 | "My New Idea!" gives `my-new-idea` |
| Text.Lower | backend/server.js:208 | `toLowerCase` never shortens a string |
| Text.LowerAppend | backend/server.js:208 | lower-casing works piece by piece |
| Text.LowerKeepsLowerAlnum | backend/server.js:208 | lower-casing leaves `[a-z0-9.-]` text unchanged |
| Text.ReplaceChar | backend/server.js:117 | every `-` becomes a space and every other character is kept |
| Text.TrimStart | frontend/src/App.js:129 | what remains is a suffix starting with a non-space, and only spaces were dropped |
| Text.TrimEnd | frontend/src/App.js:129 | what remains is a prefix ending in a non-space, and only spaces were dropped |
| Text.TrimShape | frontend/src/App.js:129-132 | trimming gives the empty text exactly for an all-space text, and otherwise a text without spaces at either end |
| Text.NatToString | frontend/src/components/TaskModal.js:95 | a number prints as decimal digits that spell it, with no leading zero |
| Metadata.First | backend/server.js:102-104 | a found match is at or after the start and is where the table holds one |
| Metadata.FirstLeftmost | backend/server.js:102-104 | nothing matches before the match found, and nothing at all when none is found |
| Metadata.FirstFinds | backend/server.js:102-104 | the first position holding a match is the one found |
| Metadata.FirstAtLeftmost | backend/server.js:102-104 | whatever position holds the leftmost match is the one found |
| Metadata.SpaceRun | backend/server.js:102-103 | the run covers `\s` characters and stops at the first other one |
| Metadata.LineRun | backend/server.js:102 | `.+` covers no line terminator and stops at the first one |
| Metadata.WordRun | backend/server.js:297 | `\w+` covers word characters and stops at the first other one |
| Metadata.TitleAt | backend/server.js:102 | a heading match captures a non-empty text after `#` and at least one space |
| Metadata.TitleAtShape | backend/server.js:102 | a heading match is a `#` at a line start, whitespace that gives back only what the capture needs, and the rest of that line |
| Metadata.TitleOf | backend/server.js:102-117 | the title is the capture of the leftmost heading match, a non-empty text without line terminators; with no heading match anywhere it is the id with hyphens as spaces |
| Metadata.TitleOfLeadingHeading | backend/server.js:102 | a text opening with `# ` and a one-line title has that title |
| Metadata.HeadingTitleExample | backend/server.js:102 | the title of a concrete heading line |
| Metadata.CreatedLabelIsCiPrefix | backend/server.js:103 | the label test is the case-insensitive prefix test for `created:` |
| Metadata.CreatedAt | backend/server.js:103 | a date match captures exactly ten characters after the label |
| Metadata.CreatedAtShape | backend/server.js:103 | a date match is the label, the whole whitespace run after it and ten date characters, and a label followed so is a match |
| Metadata.CreatedOf | backend/server.js:103-122 | the date is the capture of the leftmost `Created:` match, a well-formed date; with no match anywhere it is today |
| Metadata.StatusLabelIsCiPrefix | backend/server.js:297 | the label test is the case-insensitive prefix test for `status:` |
| Metadata.StatusAt | backend/server.js:297 | a status match covers the label, spaces and a non-empty word |
| Metadata.StatusAtShape | backend/server.js:297 | a status match is the label, a run of whitespace, and a whole word |
| Metadata.TagsAt | backend/server.js:104 | a tag-line match captures non-empty text after `Tags:` |
| Metadata.TagsAtShape | backend/server.js:104 | a tag-line match is the label, whitespace that gives back only what the capture needs, and the rest of that line |
| Metadata.PieceRun | backend/server.js:109 | a piece runs up to the first space or comma |
| Metadata.PiecesSplit | backend/server.js:109 | splitting at a space or comma gives the pieces before it followed by the pieces after it |
| Metadata.PiecesWord | backend/server.js:109 | a text without spaces and commas is one piece, and the empty text none |
| Metadata.PiecesBlank | backend/server.js:109 | a text of spaces and commas only has no pieces |
| Metadata.CleanTags | backend/server.js:109 | when no piece is a lone `#`, the cleaned tags are the pieces without their leading `#`, in order; no cleaned tag is empty |
| Metadata.CleanTagsAppend | backend/server.js:109 | cleaning works piece by piece: the tags of two lists are those of the first followed by those of the second |
| Metadata.CleanTagsOne | backend/server.js:109 | one piece gives itself without a leading `#`, or nothing for a lone `#` |
| Metadata.HashMatchesAll | backend/server.js:104 | the global `#\w+` search returns one match per position holding `#` and a word character, in the order of the text, each the `#` with its whole word |
| Metadata.StripAll | backend/server.js:111 | every token loses its leading `#` |
| Metadata.TagsOf | backend/server.js:104-113 | the leftmost tag-line match decides: spelt exactly `Tags:`, its capture split and cleaned; in another letter case, the whole match and the capture without a leading `#`; with no tag-line match anywhere, the `#word` tokens without `#` |
| Metadata.HashTagsAreWords | backend/server.js:104-111 | without a tag line every tag is a non-empty run of word characters |
| Metadata.HashTagsOf | backend/server.js:104-111 | without a tag line the tags are the words after every `#` followed by a word character, in the order of the text |
| Metadata.NoTagsLabel | backend/server.js:104 | text without the letter `t` has no tag line |
| Metadata.ExplicitTagsExample | backend/server.js:104-109 | `Tags: a, b` gives `a` and `b` |
| Metadata.LowercaseTagsExample | backend/server.js:104-111 | `tags: #x` gives the whole match and `x` |
| Metadata.HashTagsExample | backend/server.js:104-111 | `#alpha` and `#bee` in text give `alpha` and `bee` |
| Metadata.PiecesExample | backend/server.js:109 | `a, b` splits into `a` and `b` |
| Metadata.CleanTagsExample | backend/server.js:109 | clean pieces are kept as they are |
| Metadata.HashMatchesExample | backend/server.js:104 | the `#word` tokens of a concrete text, in order |
| Metadata.ExplicitTagsMatch | backend/server.js:104 | where the tag line of a concrete text is found |
| Description.Capitalize | backend/server.js:225 | the first letter is upper-cased, the rest kept, and word characters stay word characters |
| Description.RewriteStatus | backend/server.js:296-299 | with the leftmost `Status:` match starting at p and ending at e, the result is the text before p, `Status: ` and the new word, then the text from e on; a text without a match is unchanged |
| Description.RewriteFirst | backend/server.js:296-299 | whatever whitespace follows the label, only the leftmost match is replaced and every other character is kept |
| Description.NoStatusBefore | backend/server.js:222-225 | no status match starts in a template's heading or date lines |
| Description.LaidOutStatus | backend/server.js:225 | the first status match of a template is its status line, covering the leading word of the status |
| Description.MoveLaidOut | backend/server.js:296-299 | the rewrite turns a template of one status into the template of the other |
| Description.HeadMove | backend/server.js:296-299 | the same for a template's head followed by any text |
| Description.TemplateMove | backend/server.js:296-299 | moving a task whose status is one word rewrites its template into the new status's template |
| Description.BlogPublishMove | backend/server.js:296-299 | `blog-publish` moved to `done` leaves `Done-publish`, because only the word part is replaced |
| Description.HeadTitle | backend/server.js:102 | a text starting like a template has that template's title |
| Description.TemplateTitle | backend/server.js:102 | a template scans back to its one-line title |
| Description.HeadEmptyTitle | backend/server.js:222-224 | with an empty title the heading match runs on to the creation line |
| Description.EmptyTitleQuirk | backend/server.js:102 | a template with an empty title scans back with `Created: <date>` as its title |
| Description.HeadCreated | backend/server.js:103 | a text starting like a template has that template's date |
| Description.TemplateCreated | backend/server.js:103 | a template scans back to its creation date |
| Client.IndexOf | frontend/src/App.js:18 | the first position of a column in the board order, or -1 exactly when it is not there |
| Client.DraggedShape | frontend/src/App.js:111-114 | the card lands at the drop index; other columns are unchanged; the source column loses exactly that card |
| Client.DraggedWithin | frontend/src/App.js:112-113 | a drop within one column keeps its cards |
| Client.DraggedAcross | frontend/src/App.js:112-113 | a drop into another column keeps the cards of the two columns together |
| Client.DraggedBack | frontend/src/App.js:112-113 | dragging the card back restores the board |
| Client.Board.constructor | frontend/src/App.js:21-28 | the board starts with four empty columns and no selection |
| Client.Board.HandleDragEnd | frontend/src/App.js:101-126 | without a destination, or dropped where it was, nothing changes and nothing is sent; otherwise the columns become the drag result and a move request for the card is returned |
| Client.FirstWithTasks | frontend/src/App.js:159-160 | the first column from a position on that has tasks, with none before it, or none at all |
| Client.Board.OpenFirstAvailableTask | frontend/src/App.js:158-165 | the first task of the first column with tasks is selected, with indexes 0 and 0; nothing changes when every column is empty |
| Client.StepUp | frontend/src/App.js:176 | `max(0, i - 1)` is one up, or 0 |
| Client.StepDown | frontend/src/App.js:178 | `min(len - 1, i + 1)` is one down, or the last index |
| Client.Vertical | frontend/src/App.js:172-190 | with a task index i the selection moves exactly when the stepped index (`StepUp` or `StepDown` of i) differs from i and lies in the column, and then to that index and its task; without a task index it never moves |
| Client.VerticalStaysInRange | frontend/src/App.js:172-190 | an in-range index stays in range |
| Client.LastWithTasksBefore | frontend/src/App.js:195-200 | the nearest column to the left with tasks, with none in between, or none at all |
| Client.NextWithTasks | frontend/src/App.js:203-208 | the nearest column to the right with tasks, with none in between, or none at all |
| Client.Sideways | frontend/src/App.js:191-224 | the first task of the nearest column with tasks in that direction, or nothing when there is none |
| Client.Board.SearchLeft | frontend/src/App.js:193-201 | the loop finds the nearest column to the left with tasks, or keeps the current index |
| Client.Board.SearchRight | frontend/src/App.js:201-209 | the loop finds the nearest column to the right with tasks, or keeps the current index |
| Client.Board.NavigateTask | frontend/src/App.js:167-226 | the new selection is `Navigate`'s when that gives one, and otherwise unchanged; the columns never change |
| Client.ReloadsOnAllButUpdates | frontend/src/App.js:70-72 | every notice reloads the board except `task_updated` |
| Client.CreateRequest | frontend/src/App.js:128-132 | nothing is sent exactly for an all-whitespace title; otherwise the title trimmed, with no whitespace at either end |
| Modal.Extension | frontend/src/components/TaskModal.js:56 | the extension is the longest dot-free end of the name, preceded by a dot unless it is the whole name |
| Modal.ExtensionAfterDot | frontend/src/components/TaskModal.js:56 | the dot-free text after a dot is the extension |
| Modal.FileIcon | frontend/src/components/TaskModal.js:55-76 | the icon is one of the table's, and the page icon for an unknown extension |
| Modal.IconIgnoresCase | frontend/src/components/TaskModal.js:56-75 | an extension in capitals gets the same icon |
| Modal.LowerOfUpper | frontend/src/components/TaskModal.js:56 | lower-casing gives the same text after ASCII letters are upper-cased |
| Modal.KnownExtensionIcon | frontend/src/components/TaskModal.js:56-75 | a name ending in a known lower-case extension gets that extension's icon from the table |
| Modal.NoExtensionIcon | frontend/src/components/TaskModal.js:75 | a name without a dot that the table does not know gets the page icon |
| Modal.MockName | frontend/src/components/TaskModal.js:83-97 | no mock name is `description.md` |
| Modal.RenderFileList | frontend/src/components/TaskModal.js:78-98 | `description.md` comes first; there is one entry per file when there are several and one entry otherwise; the next five are the fixed names, then `document<k>.txt` |
| Modal.FileKind | frontend/src/components/TaskModal.js:106 | the main-description label goes exactly to `description.md` |
| Modal.OnlyFirstIsMain | frontend/src/components/TaskModal.js:79-106 | in a rendered list only the first entry is the main description |
| Modal.RenderFilesSection | frontend/src/components/TaskModal.js:184-191 | no list exactly when there are no files; otherwise the list starts with `description.md` |
| Modal.Editor.constructor | frontend/src/components/TaskModal.js:7-10 | a new dialog is loading and not editing |
| Modal.Editor.LoadDetails | frontend/src/components/TaskModal.js:16-28 | a fetched text becomes both texts; on failure the task's own description or the error text is shown and the edited text stays |
| Modal.Editor.Edit | frontend/src/components/TaskModal.js:154 | only the edited text changes |
| Modal.Editor.ToggleEdit | frontend/src/components/TaskModal.js:137 | the mode flips and both texts stay |
| Modal.Editor.Save | frontend/src/components/TaskModal.js:30-42 | an accepted save makes the edited text the description and ends editing; a refused one changes nothing; the board reloads exactly on acceptance |
| Modal.Editor.Cancel | frontend/src/components/TaskModal.js:168-171 | editing ends and the edited text is the description again |
| Modal.Editor.HandleKeyPress | frontend/src/components/TaskModal.js:44-53 | Escape while editing ends editing, resets the edited text and keeps the dialog open; Escape otherwise closes it; other keys change nothing |

## Left out

- `daemon.py`: process supervision only (PID files, signals, child processes).
- The watcher library: a change event is a parameter of `Server.TaskServer.OnWatchEvent`. Which paths are watched (four of the eight column directories) and its `.DS_Store` filter are not modelled.
- The HTTP and WebSocket layers: routing, JSON bodies, status codes and the console logging. Replies are `Outcome` values.
  - Express route parameters are never empty, so `GetTask`, `MoveTask` and the updates require a non-empty id.
  - A missing `title` field in a create request (a thrown `TypeError`, HTTP 500) is not modelled: the title is a string.
- Open-in-Finder (`backend/server.js:371-399`): it shells out to `open`.
- The clock: `new Date()` is the `today` parameter of the scan and of `CreateTask`.
- Path normalisation: ids such as `.`, `..` or ones holding `/` are taken as plain names. An empty id drops out of a joined path, as `path.join` does.
- `readdir` order: `Server.ListFiles` and `Server.TaskServer.ScanColumn` promise every name once, in an order left open.
- File-system failures other than the modelled ones (permissions, races between the scan and a move, a full disk).
- The tree does not change during a scan. In the source, an entry that vanishes between the column's `readdir` and its `fs.stat` throws out of the loop. The column-wide catch (`backend/server.js:128-130`) then drops every remaining entry of that column.
- A `description.md` that is a folder is read during a scan by a `readFile` that fails. The inner catch keeps the listing and leaves the description empty, as `Server.FileText` gives it.
- Object prototype keys: `STATUS_DIRS['constructor']` and `iconMap['constructor']` are truthy in JavaScript. The model takes only the own keys.
- `toLowerCase` beyond ASCII, Latin-1, U+0130 and the Kelvin sign keeps the character.
- The accent map of `backend/server.js:209`, as written in the file, has keys of two characters that never equal the one matched character. It would replace each accented character by `undefined`, which the next step turns into `undefined` letters. The model takes the replacement as a parameter `fold`; every slug property holds for all of them.
- `Server.TaskServer.GetTask`: the reply's `path` field is the tree path, not the absolute path; the same holds for the scan's `path`.
- The JSON key order of replies.
- The client's network calls (axios), React rendering, the status banner and its timer, the WebSocket reconnect timer, and `openInFinder`.
- `Client.Board.HandleDragEnd`: the splice in the source works on the arrays the old state still shares. The model builds new columns, so that aliasing is not captured. The reload after a failed move is not modelled either; the request is returned instead.
- `Client.Board.NavigateTask`: the dialog receives it as `onNavigate` but never calls it. It is modelled as written.
- The global Enter handler (`frontend/src/App.js:46-57`) only calls `OpenFirstAvailableTask` when no task is selected.
- `Client.Selection` keeps its indexes as options. Every selection the source makes carries both: a click sets them at `frontend/src/App.js:294-297`, and so do the first-task and navigation handlers. `openTaskModal` (`frontend/src/App.js:143-145`) would select without them but is never called. The missing case cannot arise in the source and is kept for generality.
- `Modal.Editor.LoadDetails`: an empty `fallback` stands for a task without a description. The `useEffect` that reloads on a new task is not modelled.
- `Modal.Editor.Save`: the `alert` on a refused save is not modelled. The parent's reload is the returned flag.
