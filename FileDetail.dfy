/** The remote file panel's path text (adb_copy/ui/file_detail_widget.py):
    the parent of the shown directory, the rows the table shows, the paths a
    drag carries, the targets of rename and new-folder, and the guard of the
    size-text parser. The dialogs' answers and the shell are inputs. */
module FileDetail {
  import opened Text
  import opened Paths
  import opened FileList
  import opened Adb

  /** `"/".join(p.rstrip("/").split("/")[:-1]) or "/"` */
  function RemoteParent(p: string): (r: string)
    ensures r != []
  {
    var d := DirectoryPart(p);
    if d == [] then "/" else d
  }

  /** The parent of a child path is the directory it was made from, and the
      root when that directory is the root (or empty); so the parent of
      `/sdcard` (and of `/sdcard/`) is `/`. */
  lemma ParentOfChild(dir: string, name: string)
    requires name != [] && '/' !in name
    ensures RemoteParent(ChildPath(dir, name)) == (if RStripChar(dir, '/') == [] then "/" else RStripChar(dir, '/'))
    ensures RemoteParent(ChildPath(dir, name) + "/") == RemoteParent(ChildPath(dir, name))
  {
    ChildParts(dir, name);
    var p := ChildPath(dir, name);
    assert p[|p| - 1] == name[|name| - 1];
    assert RStripChar(p + "/", '/') == RStripChar(p, '/') by {
      assert (p + "/")[..|p + "/"| - 1] == p;
    }
  }

  /** The parent is a prefix of the path: no character appears in it that
      the path lacks. */
  lemma ParentChars(p: string, c: char)
    requires c != '/' && c !in p
    ensures c !in RemoteParent(p)
  {
    var s := RStripChar(p, '/');
    if '/' in s {
      DirectoryAndBase(p);
      var d := DirectoryPart(p);
      forall i | 0 <= i < |d| ensures d[i] != c {
        assert d[i] == (d + "/" + BaseName(p))[i] == s[i] == p[i];
      }
    } else {
      SplitNoSep(s, '/');
    }
  }

  /** `load_files` fills an empty current path from the first entry's
      parent. */
  function ListedPath(currentPath: string, files: seq<RemoteFileInfo>): string {
    if |files| > 0 && currentPath == [] then RemoteParent(files[0].path) else currentPath
  }

  /** For a listing of `dir`, the recovered path is `dir` without its
      trailing slashes (the root for `/`). */
  lemma ListedPathOfListing(dir: string, files: seq<RemoteFileInfo>)
    requires |files| > 0
    requires files[0].name != [] && '/' !in files[0].name
    requires files[0].path == ChildPath(dir, files[0].name)
    ensures ListedPath("", files) == (if RStripChar(dir, '/') == [] then "/" else RStripChar(dir, '/'))
  {
    ParentOfChild(dir, files[0].name);
  }

  // ---------------------------------------------------------------------
  // The rows

  /** One table row as far as paths go: the path stored with the name, the
      directory flag, and the type column. */
  datatype PanelRow = PanelRow(path: string, isDir: bool, typeText: string)

  /** The parent row is shown for every directory but the root. */
  predicate ShowsParentRow(currentPath: string) {
    currentPath != [] && currentPath != "/"
  }

  /** The type column: "Folder" for directories, otherwise the name's
      suffix, or "-" when it has none. It says "Folder" exactly for
      directories; a file shows "-" or a dot-led suffix, so no entry's type
      reads "Parent". */
  function TypeText(f: RemoteFileInfo): (t: string)
    ensures t == "Folder" <==> f.isDir
    ensures !f.isDir ==> t == "-" || (|t| >= 2 && t[0] == '.')
    ensures t != "Parent"
  {
    StemSuffix(BaseName(f.name));
    assert "Folder"[0] == 'F' && "Parent"[0] == 'P';
    if f.isDir then "Folder"
    else if Suffix(BaseName(f.name)) != [] then Suffix(BaseName(f.name))
    else "-"
  }

  function FileRows(files: seq<RemoteFileInfo>): seq<PanelRow> {
    if |files| == 0 then []
    else FileRows(files[..|files| - 1]) + [PanelRow(files[|files| - 1].path, files[|files| - 1].isDir, TypeText(files[|files| - 1]))]
  }

  /** The parent row: the parent directory, marked as a directory, typed
      "Parent". */
  function ParentRow(currentPath: string): PanelRow {
    PanelRow(RemoteParent(currentPath), true, "Parent")
  }

  /** `load_files`: the parent row first when shown, then one row per
      entry in order. */
  function TableRows(currentPath: string, files: seq<RemoteFileInfo>): seq<PanelRow> {
    (if ShowsParentRow(currentPath) then [ParentRow(currentPath)] else []) + FileRows(files)
  }

  // ---------------------------------------------------------------------
  // Drags

  /** The drag filter as written: skip a row whose path contains "..". */
  predicate DragSkipsAsWritten(row: PanelRow) {
    row.path != [] && Contains(row.path, "..")
  }

  function DragPathsAsWritten(rows: seq<PanelRow>): seq<string> {
    if |rows| == 0 then []
    else DragPathsAsWritten(rows[..|rows| - 1]) + (if DragSkipsAsWritten(rows[|rows| - 1]) then [] else [rows[|rows| - 1].path])
  }

  /** The drag filter as intended: skip the parent row, which is the one
      typed "Parent". */
  predicate DragSkips(row: PanelRow) {
    row.typeText == "Parent"
  }

  function DragPaths(rows: seq<PanelRow>): seq<string> {
    if |rows| == 0 then []
    else DragPaths(rows[..|rows| - 1]) + (if DragSkips(rows[|rows| - 1]) then [] else [rows[|rows| - 1].path])
  }

  function EntryPaths(files: seq<RemoteFileInfo>): seq<string> {
    if |files| == 0 then [] else EntryPaths(files[..|files| - 1]) + [files[|files| - 1].path]
  }

  lemma {:induction false} DotDotHasDot(s: string)
    requires Contains(s, "..")
    ensures '.' in s
  {
    var i := ContainsWitness(s, "..");
    assert s[i..i + 2][0] == s[i];
  }

  /** As written, the filter misses the parent row of any directory whose
      path has no dot: its path, the parent directory, is dragged along. */
  lemma ParentRowDraggedAsWritten(currentPath: string, files: seq<RemoteFileInfo>)
    requires ShowsParentRow(currentPath) && '.' !in currentPath
    ensures |TableRows(currentPath, files)| > 0 && TableRows(currentPath, files)[0] == ParentRow(currentPath)
    ensures !DragSkipsAsWritten(ParentRow(currentPath))
    ensures DragPathsAsWritten(TableRows(currentPath, [])) == [RemoteParent(currentPath)]
    ensures DragPaths(TableRows(currentPath, [])) == []
  {
    ParentChars(currentPath, '.');
    if DragSkipsAsWritten(ParentRow(currentPath)) {
      DotDotHasDot(RemoteParent(currentPath));
    }
    var rows := TableRows(currentPath, []);
    assert rows == [ParentRow(currentPath)];
    assert rows[..0] == [];
  }

  /** As written, the filter drops an ordinary entry whose name holds "..",
      such as `a..b`. */
  lemma DotDotNameSkippedAsWritten(f: RemoteFileInfo, i: nat)
    requires i + 2 <= |f.path| && f.path[i..i + 2] == ".."
    ensures TypeText(f) != "Parent" && DragSkipsAsWritten(PanelRow(f.path, f.isDir, TypeText(f)))
  {
    ContainsAt(f.path, "..", i);
  }

  /** With the intended filter a drag carries exactly the entries' paths,
      in order, and never the parent directory's row. */
  lemma {:induction false} DragCarriesEntries(currentPath: string, files: seq<RemoteFileInfo>)
    ensures DragPaths(TableRows(currentPath, files)) == EntryPaths(files)
  {
    FileRowsDrag(files);
    var head: seq<PanelRow> := if ShowsParentRow(currentPath) then [ParentRow(currentPath)] else [];
    DragPathsAppend(head, FileRows(files));
    assert DragPaths(head) == [] by {
      if |head| == 1 {
        assert head[..0] == [];
      }
    }
  }

  lemma {:induction false} FileRowsDrag(files: seq<RemoteFileInfo>)
    ensures DragPaths(FileRows(files)) == EntryPaths(files)
  {
    if |files| > 0 {
      var init := files[..|files| - 1];
      FileRowsDrag(init);
      assert FileRows(files)[..|FileRows(files)| - 1] == FileRows(init);
    }
  }

  lemma {:induction false} DragPathsAppend(a: seq<PanelRow>, b: seq<PanelRow>)
    ensures DragPaths(a + b) == DragPaths(a) + DragPaths(b)
    decreases |b|
  {
    if |b| == 0 {
      assert a + b == a;
    } else {
      var init := b[..|b| - 1];
      DragPathsAppend(a, init);
      assert (a + b)[..|a + b| - 1] == a + init;
    }
  }

  // ---------------------------------------------------------------------
  // Rename and new folder

  /** `_on_rename`'s target: nothing when the dialog is cancelled or the
      name is empty or unchanged; otherwise the new name next to the old
      path, with no root fallback (renaming `/x` gives `/new`). */
  function RenameTarget(oldPath: string, newName: string, ok: bool): Option<string> {
    if !ok || newName == [] || newName == BaseName(oldPath) then None
    else Some(DirectoryPart(oldPath) + "/" + newName)
  }

  /** Renaming an entry of a directory keeps it in that directory under the
      new name; keeping the old name does nothing. */
  lemma RenameInPlace(dir: string, oldName: string, newName: string)
    requires oldName != [] && '/' !in oldName
    ensures newName != [] && newName != oldName ==>
      RenameTarget(ChildPath(dir, oldName), newName, true) == Some(ChildPath(dir, newName))
    ensures RenameTarget(ChildPath(dir, oldName), oldName, true) == None
  {
    ChildParts(dir, oldName);
  }

  /** What a rename does: nothing, or the `mv` command's outcome. */
  function Rename(oldPath: string, newName: string, ok: bool, run: string -> ShellResult): (r: Option<Outcome>)
    ensures r.Some? <==> RenameTarget(oldPath, newName, ok).Some?
    ensures r.Some? ==> r.value == RenameFile(oldPath, RenameTarget(oldPath, newName, ok).value, run)
  {
    match RenameTarget(oldPath, newName, ok)
    case None => None
    case Some(newPath) => Some(RenameFile(oldPath, newPath, run))
  }

  /** `_on_create_folder`'s target: nothing without a device, a current
      path, a confirmed dialog and a name; otherwise the name inside the
      current directory. */
  function NewFolderTarget(device: Option<AdbDevice>, currentPath: string, folderName: string, ok: bool): Option<string> {
    if device.None? || currentPath == [] then None
    else if !ok || folderName == [] then None
    else Some(ChildPath(currentPath, folderName))
  }

  /** What a new-folder request does: nothing, or the `mkdir -p` command's
      outcome. */
  function NewFolder(device: Option<AdbDevice>, currentPath: string, folderName: string, ok: bool,
                     run: string -> ShellResult): (r: Option<Outcome>)
    ensures r.Some? <==> NewFolderTarget(device, currentPath, folderName, ok).Some?
    ensures r.Some? ==> r.value == CreateDirectory(NewFolderTarget(device, currentPath, folderName, ok).value, run)
  {
    match NewFolderTarget(device, currentPath, folderName, ok)
    case None => None
    case Some(path) => Some(CreateDirectory(path, run))
  }

  /** A created folder lies directly inside the current directory and
      carries the given name. */
  lemma NewFolderInside(device: Option<AdbDevice>, currentPath: string, folderName: string)
    requires device.Some? && currentPath != [] && folderName != [] && '/' !in folderName
    ensures var t := NewFolderTarget(device, currentPath, folderName, true);
      t.Some? && DirectoryPart(t.value) == RStripChar(currentPath, '/') && BaseName(t.value) == folderName
  {
    ChildParts(currentPath, folderName);
  }

  // ---------------------------------------------------------------------
  // The size-text guard

  /** The guard of `_parse_size`: the two whitespace-separated fields, or
      nothing (and a size of 0) for empty text or any other field count. */
  function SizeFields(sizeText: string): (r: Option<(string, string)>)
    ensures AllSpace(sizeText) ==> r.None?
    ensures r.Some? ==> r.value.0 != [] && NoSpace(r.value.0) && r.value.1 != [] && NoSpace(r.value.1)
  {
    BlankHasNoWords(sizeText);
    if sizeText == [] then None
    else
      var parts := Words(sizeText);
      if |parts| != 2 then None else Some((parts[0], parts[1]))
  }

  lemma BlankHasNoWords(t: string)
    ensures AllSpace(t) ==> Words(t) == []
  {
    if AllSpace(t) {
      WordsOfBlank(t);
    }
  }

  /** A value and a unit, with any whitespace around and between them, are
      read back as those two fields; a third field makes the text
      unreadable. */
  lemma SizeFieldsSpec(lead: string, value: string, gap: string, unit: string, trail: string, extra: string)
    requires AllSpace(lead) && AllSpace(trail) && gap != [] && AllSpace(gap)
    requires value != [] && unit != [] && NoSpace(value) && NoSpace(unit)
    requires extra != [] && NoSpace(extra)
    ensures SizeFields(lead + (value + (gap + (unit + trail)))) == Some((value, unit))
    ensures SizeFields(lead + (value + (gap + (unit + (gap + extra))))) == None
  {
    WordsOfBlank(trail);
    WordsCons(unit, trail);
    WordsCons(value, gap + (unit + trail));
    WordsLeadingSpace(gap, unit + trail);
    WordsLeadingSpace(lead, value + (gap + (unit + trail)));
    assert |lead + (value + (gap + (unit + trail)))| > 0;
    WordsCons(extra, []);
    assert extra + [] == extra;
    WordsLeadingSpace(gap, extra);
    WordsCons(unit, gap + extra);
    WordsLeadingSpace(gap, unit + (gap + extra));
    WordsCons(value, gap + (unit + (gap + extra)));
    WordsLeadingSpace(lead, value + (gap + (unit + (gap + extra))));
    assert |lead + (value + (gap + (unit + (gap + extra))))| > 0;
  }
}
