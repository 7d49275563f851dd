/** The task detail dialog of the web client
    (frontend/src/components/TaskModal.js): the icon shown for a file name, the
    mock file list built from a file count, and the edit state of the
    description. */
module Modal {
  import opened Wrappers
  import opened Text

  // ---------------------------------------------------------------- file icons

  const PageIcon: string := "\U{1F4C4}"
  const MemoIcon: string := "\U{1F4DD}"
  const BarChartIcon: string := "\U{1F4CA}"
  const TrendIcon: string := "\U{1F4C8}"
  const PictureIcon: string := "\U{1F5BC}\U{FE0F}"
  const CameraIcon: string := "\U{1F3A5}"

  /** The icon of each known extension, in lower case. */
  const IconMap: map<string, string> := map[
    "md" := PageIcon, "txt" := MemoIcon, "pdf" := BarChartIcon,
    "doc" := PageIcon, "docx" := PageIcon,
    "xls" := TrendIcon, "xlsx" := TrendIcon,
    "ppt" := BarChartIcon, "pptx" := BarChartIcon,
    "jpg" := PictureIcon, "jpeg" := PictureIcon, "png" := PictureIcon, "gif" := PictureIcon,
    "mp4" := CameraIcon, "mov" := CameraIcon, "avi" := CameraIcon]

  predicate NoDot(s: string) {
    forall i :: 0 <= i < |s| ==> s[i] != '.'
  }

  /** The number of characters before position `n` of `name` back to the
      nearest dot, or to the start when there is none. */
  function DotFreeRun(name: string, n: nat): (k: nat)
    requires n <= |name|
    ensures k <= n
    ensures forall i :: n - k <= i < n ==> name[i] != '.'
    ensures k < n ==> name[n - k - 1] == '.'
  {
    if n == 0 || name[n - 1] == '.' then 0 else DotFreeRun(name, n - 1) + 1
  }

  /** `filename.split('.').pop()`: the longest dot-free end of the name, which is
      the text after the last dot, or the whole name when it has none. */
  function Extension(name: string): (r: string)
    ensures NoDot(r)
    ensures |r| <= |name| && r == name[|name| - |r|..]
    ensures |r| < |name| ==> name[|name| - |r| - 1] == '.'
  {
    name[|name| - DotFreeRun(name, |name|)..]
  }

  /** `getFileIcon`: the icon of the lower-cased extension, and the page icon for
      an extension the table does not know. */
  function FileIcon(name: string): (r: string)
    ensures r in IconMap.Values
    ensures Lower(Extension(name)) !in IconMap ==> r == PageIcon
  {
    var ext := Lower(Extension(name));
    assert IconMap["md"] == PageIcon;
    if ext in IconMap then IconMap[ext] else PageIcon
  }

  /** A dot-free text after a dot is the extension. */
  lemma {:induction false} ExtensionAfterDot(base: string, ext: string)
    requires NoDot(ext)
    ensures Extension(base + "." + ext) == ext
  {
    var name := base + "." + ext;
    assert name[|name| - |ext| - 1] == '.';
    assert name[|name| - |ext|..] == ext;
  }

  /** The ASCII letters of `s` upper-cased. */
  function UpperAscii(s: string): (r: string)
    ensures |r| == |s|
  {
    if s == [] then [] else [UpperOf(s[0])] + UpperAscii(s[1..])
  }

  /** Upper-casing ASCII letters does not change what lower-casing gives. */
  lemma {:induction false} LowerOfUpper(s: string)
    ensures Lower(UpperAscii(s)) == Lower(s)
  {
    if s != [] {
      var u := UpperAscii(s);
      assert u[0] == UpperOf(s[0]) && u[1..] == UpperAscii(s[1..]);
      assert LowerOf(UpperOf(s[0])) == LowerOf(s[0]);
      LowerOfUpper(s[1..]);
    }
  }

  /** The icon lookup ignores the case of the extension: `REPORT.PDF` gets the
      icon of `report.pdf`. */
  lemma {:induction false} IconIgnoresCase(base: string, ext: string)
    requires NoDot(ext)
    ensures FileIcon(base + "." + UpperAscii(ext)) == FileIcon(base + "." + ext)
  {
    assert NoDot(UpperAscii(ext)) by {
      UpperKeepsDots(ext);
    }
    ExtensionAfterDot(base, ext);
    ExtensionAfterDot(base, UpperAscii(ext));
    LowerOfUpper(ext);
  }

  lemma {:induction false} UpperKeepsDots(s: string)
    requires NoDot(s)
    ensures NoDot(UpperAscii(s))
  {
    if s != [] {
      UpperKeepsDots(s[1..]);
      assert UpperAscii(s) == [UpperOf(s[0])] + UpperAscii(s[1..]);
    }
  }

  /** A name ending in a dot and a known extension in lower case gets that
      extension's icon; by `IconIgnoresCase` so does one whose extension is
      written in capitals. */
  lemma {:induction false} KnownExtensionIcon(base: string, ext: string)
    requires ext in IconMap
    requires forall i :: 0 <= i < |ext| ==> IsLowerAlnum(ext[i])
    ensures FileIcon(base + "." + ext) == IconMap[ext]
  {
    ExtensionAfterDot(base, ext);
    LowerKeepsLowerAlnum(ext);
  }

  /** A name without a dot is its own extension: `Makefile` gets the page icon. */
  lemma {:induction false} NoExtensionIcon(name: string)
    requires NoDot(name)
    requires Lower(name) !in IconMap
    ensures FileIcon(name) == PageIcon
  {
    assert |Extension(name)| == |name|;
  }

  // ---------------------------------------------------------------- file list

  /** The names shown after `description.md` for the second to sixth file. */
  const MockNames: seq<string> := ["notes.txt", "research.pdf", "links.md", "meeting-notes.md", "resources.pdf"]

  /** The name `renderFileList` shows at position `k >= 1`. */
  function MockName(k: nat): (r: string)
    requires k >= 1
    ensures r != "description.md"
  {
    if k - 1 < |MockNames| then MockNames[k - 1]
    else
      var r := "document" + NatToString(k) + ".txt";
      assert r[2] == 'c' && "description.md"[2] == 's';
      r
  }

  /** `renderFileList`: `description.md` first and then, for a count above one,
      one mock name for each further file. */
  method RenderFileList(files: nat) returns (names: seq<string>)
    ensures |names| == if files > 1 then files else 1
    ensures names[0] == "description.md"
    ensures forall k :: 1 <= k < |names| ==> names[k] == MockName(k)
  {
    names := ["description.md"];
    if files > 1 {
      var i := 1;
      while i < files
        invariant 1 <= i <= files
        invariant |names| == i
        invariant names[0] == "description.md"
        invariant forall k :: 1 <= k < i ==> names[k] == MockName(k)
      {
        if i - 1 < |MockNames| {
          names := names + [MockNames[i - 1]];
        } else {
          names := names + ["document" + NatToString(i) + ".txt"];
        }
        i := i + 1;
      }
    }
  }

  /** The label under a file name. */
  function FileKind(name: string): (r: string)
    ensures r == "Main Description" <==> name == "description.md"
  {
    if name == "description.md" then "Main Description" else "Document"
  }

  /** In a rendered list only the first entry is labelled as the main
      description. */
  lemma {:induction false} OnlyFirstIsMain(names: seq<string>)
    requires |names| >= 1 && names[0] == "description.md"
    requires forall k :: 1 <= k < |names| ==> names[k] == MockName(k)
    ensures forall k :: 0 <= k < |names| ==> (FileKind(names[k]) == "Main Description" <==> k == 0)
  {
    forall k | 1 <= k < |names|
      ensures FileKind(names[k]) != "Main Description"
    {
      assert names[k] == MockName(k);
    }
  }

  /** The files part of the dialog: a note for a task without files, the list
      otherwise. */
  datatype FilesSection = NoFiles | Listing(names: seq<string>)

  method RenderFilesSection(files: nat) returns (s: FilesSection)
    ensures s == NoFiles <==> files == 0
    ensures s.Listing? ==> |s.names| == (if files > 1 then files else 1) && s.names[0] == "description.md"
  {
    if files == 0 {
      s := NoFiles;
    } else {
      var names := RenderFileList(files);
      s := Listing(names);
    }
  }

  // ---------------------------------------------------------------- edit state

  /** What the dialog holds about the description it shows and edits. */
  class Editor {
    var description: string
    var edited: string
    var editing: bool
    var loading: bool
    var open: bool

    /** A dialog that has just opened: loading, not editing. */
    constructor ()
      ensures description == "" && edited == "" && !editing && loading && open
    {
      description := "";
      edited := "";
      editing := false;
      loading := true;
      open := true;
    }

    /** The edited text agrees with the saved description. */
    predicate Synced()
      reads this
    {
      edited == description
    }

    /** `loadTaskDetails`: a fetched description replaces both texts; when the
        request fails the task's own description is shown, or an error text
        when it has none (`fallback` is empty). */
    method LoadDetails(response: Option<string>, fallback: string)
      modifies this
      ensures !loading && editing == old(editing) && open == old(open)
      ensures response.Some? ==> description == response.value && Synced()
      ensures response.None? ==>
                && description == (if fallback != "" then fallback else "Error loading description")
                && edited == old(edited)
    {
      loading := true;
      if response.Some? {
        description := response.value;
        edited := response.value;
      } else {
        description := if fallback != "" then fallback else "Error loading description";
      }
      loading := false;
    }

    /** The text area's change handler. */
    method Edit(text: string)
      modifies this
      ensures edited == text
      ensures description == old(description) && editing == old(editing)
      ensures loading == old(loading) && open == old(open)
    {
      edited := text;
    }

    /** The edit button flips the mode and keeps the edited text as it is. */
    method ToggleEdit()
      modifies this
      ensures editing == !old(editing)
      ensures description == old(description) && edited == old(edited)
      ensures loading == old(loading) && open == old(open)
    {
      editing := !editing;
    }

    /** `saveDescription`: once the server has accepted the text it becomes the
        description and editing ends; a refused save changes nothing (the user
        is alerted). Returns whether the board is told to reload. */
    method Save(accepted: bool) returns (reload: bool)
      modifies this
      ensures reload == accepted
      ensures accepted ==> description == old(edited) && Synced() && !editing
      ensures !accepted ==> description == old(description) && edited == old(edited) && editing == old(editing)
      ensures loading == old(loading) && open == old(open)
    {
      if accepted {
        description := edited;
        editing := false;
      }
      reload := accepted;
    }

    /** The Cancel button: editing ends and the edited text goes back to the
        description. */
    method Cancel()
      modifies this
      ensures !editing && Synced() && description == old(description)
      ensures loading == old(loading) && open == old(open)
    {
      editing := false;
      edited := description;
    }

    /** `handleKeyPress`: Escape while editing cancels the edit and keeps the
        dialog open; Escape otherwise closes it; any other key does nothing. */
    method HandleKeyPress(key: string)
      modifies this
      ensures description == old(description) && loading == old(loading)
      ensures key == "Escape" && old(editing) ==> !editing && Synced() && open == old(open)
      ensures key == "Escape" && !old(editing) ==> !open && edited == old(edited) && !editing
      ensures key != "Escape" ==> edited == old(edited) && editing == old(editing) && open == old(open)
    {
      if key == "Escape" {
        if editing {
          editing := false;
          edited := description;
        } else {
          open := false;
        }
      }
    }
  }
}
