/** One file panel's list: the entries of the directory it shows, the names
    the user has selected, and the cursor row.

    The table widget's own behaviour is modelled where the panel relies on
    it: the row count, `clear()` putting the cursor back on row 0, moving
    the cursor up or down one row, and `move_cursor` clamping the requested
    row to the table. Rendering (colours, sizes, markers) is not modelled. */
module FileListPanel {
  import opened Wrappers
  import opened Strings
  import opened PosixPath
  import opened Sorting
  import opened RcloneWrapper
  import opened Navigation

  /** 1 when the list starts with a `..` row, which it does everywhere but at the root. */
  function Offset(currentPath: string): nat {
    if currentPath != "" then 1 else 0
  }

  /** The entry under the cursor row, if there is one: the `..` row and rows
      past the end have none. */
  function EntryIndex(currentPath: string, cursor: int, count: nat): (r: Option<nat>)
    ensures r == if 0 <= cursor - Offset(currentPath) < count then Some(cursor - Offset(currentPath)) else None
  {
    if count == 0 || cursor < 0 then None
    else if currentPath != "" && cursor == 0 then None
    else
      var actualIndex := cursor - Offset(currentPath);
      if actualIndex < 0 || actualIndex >= count then None else Some(actualIndex)
  }

  /** The selection after toggling the entry under the cursor. */
  function Toggled(selected: set<string>, entries: seq<FileEntry>, currentPath: string, cursor: int): (r: set<string>)
    ensures EntryIndex(currentPath, cursor, |entries|).None? ==> r == selected
    ensures EntryIndex(currentPath, cursor, |entries|).Some? ==>
      var name := entries[EntryIndex(currentPath, cursor, |entries|).value].name;
      forall n :: (n in r <==> n in selected) <==> n != name
  {
    match EntryIndex(currentPath, cursor, |entries|)
    case None => selected
    case Some(k) =>
      var name := entries[k].name;
      if name in selected then selected - {name} else selected + {name}
  }

  /** Toggling the same row twice gives the selection back. */
  lemma ToggleTwiceRestores(selected: set<string>, entries: seq<FileEntry>, currentPath: string, cursor: int)
    ensures Toggled(Toggled(selected, entries, currentPath, cursor), entries, currentPath, cursor) == selected
  {
    var once := Toggled(selected, entries, currentPath, cursor);
    var twice := Toggled(once, entries, currentPath, cursor);
    forall n ensures n in twice <==> n in selected {
      if EntryIndex(currentPath, cursor, |entries|).Some? {
        var name := entries[EntryIndex(currentPath, cursor, |entries|).value].name;
        assert (n in twice <==> n in once) <==> n != name;
        assert (n in once <==> n in selected) <==> n != name;
      }
    }
  }

  /** The entries whose names are in `names`, in list order, each as often
      as it occurs in `entries`. */
  function EntriesNamed(entries: seq<FileEntry>, names: set<string>): (r: seq<FileEntry>)
    ensures IsSubsequence(r, entries)
    ensures forall e :: e in r <==> e in entries && e.name in names
    ensures forall e :: multiset(r)[e] == if e.name in names then multiset(entries)[e] else 0
  {
    if entries == [] then []
    else
      var rest := EntriesNamed(entries[1..], names);
      assert entries == [entries[0]] + entries[1..];
      if entries[0].name in names then [entries[0]] + rest else rest
  }

  /** The entries of one kind (directories or files), in list order. */
  function OfKind(entries: seq<FileEntry>, isDir: bool): (r: seq<FileEntry>)
    ensures forall e :: e in r ==> e.isDir == isDir
  {
    if entries == [] then []
    else
      var n := |entries| - 1;
      var init := OfKind(entries[..n], isDir);
      if entries[n].isDir == isDir then init + [entries[n]] else init
  }

  /** Splitting by kind loses and invents nothing. */
  lemma {:induction false} OfKindPartitions(entries: seq<FileEntry>)
    ensures multiset(OfKind(entries, true)) + multiset(OfKind(entries, false)) == multiset(entries)
  {
    if entries != [] {
      var n := |entries| - 1;
      OfKindPartitions(entries[..n]);
      assert entries == entries[..n] + [entries[n]];
    }
  }

  /** Sort key `name.lower()`. */
  function ByLowerName(): (FileEntry, FileEntry) -> bool {
    (a: FileEntry, b: FileEntry) => LexLe(Lower(a.name), Lower(b.name))
  }

  lemma ByLowerNameIsTotalPreorder()
    ensures TotalPreorder(ByLowerName())
  {
    forall a: FileEntry, b: FileEntry ensures ByLowerName()(a, b) || ByLowerName()(b, a) {
      LexLeTotal(Lower(a.name), Lower(b.name));
    }
    forall a: FileEntry, b: FileEntry, c: FileEntry | ByLowerName()(a, b) && ByLowerName()(b, c)
      ensures ByLowerName()(a, c)
    {
      LexLeTransitive(Lower(a.name), Lower(b.name), Lower(c.name));
    }
  }

  /** The order the list shows: directories before files, each group in
      case-insensitive name order. */
  predicate DisplayOrdered(entries: seq<FileEntry>) {
    && (forall i, j :: 0 <= i < j < |entries| && entries[j].isDir ==> entries[i].isDir)
    && (forall i, j :: 0 <= i < j < |entries| && entries[i].isDir == entries[j].isDir ==>
          LexLe(Lower(entries[i].name), Lower(entries[j].name)))
  }

  /** `dirs + files` of `set_entries`: the directories, then the files,
      each sorted by `name.lower()`. */
  function DisplayOrder(entries: seq<FileEntry>): seq<FileEntry> {
    SortBy(OfKind(entries, true), ByLowerName()) + SortBy(OfKind(entries, false), ByLowerName())
  }

  /** Arranging the entries for display keeps the same entries and puts
      them in display order. */
  lemma DisplayOrderSorts(entries: seq<FileEntry>)
    ensures multiset(DisplayOrder(entries)) == multiset(entries)
    ensures DisplayOrdered(DisplayOrder(entries))
  {
    ByLowerNameIsTotalPreorder();
    OfKindPartitions(entries);
    SortBySorted(OfKind(entries, true), ByLowerName());
    SortBySorted(OfKind(entries, false), ByLowerName());
    SortedOfKind(entries, true);
    SortedOfKind(entries, false);
    GroupsInDisplayOrder(SortBy(OfKind(entries, true), ByLowerName()), SortBy(OfKind(entries, false), ByLowerName()));
  }

  /** Sorting the entries of one kind keeps them of that kind. */
  lemma SortedOfKind(entries: seq<FileEntry>, isDir: bool)
    requires TotalPreorder(ByLowerName())
    ensures forall e :: e in SortBy(OfKind(entries, isDir), ByLowerName()) ==> e.isDir == isDir
  {
    var sorted := SortBy(OfKind(entries, isDir), ByLowerName());
    SortBySorted(OfKind(entries, isDir), ByLowerName());
    forall e | e in sorted ensures e.isDir == isDir {
      assert e in multiset(sorted);
    }
  }

  /** Sorted directories followed by sorted files are in display order. */
  lemma GroupsInDisplayOrder(dirs: seq<FileEntry>, files: seq<FileEntry>)
    requires SortedBy(dirs, ByLowerName()) && SortedBy(files, ByLowerName())
    requires forall e :: e in dirs ==> e.isDir
    requires forall e :: e in files ==> !e.isDir
    ensures DisplayOrdered(dirs + files)
  {
    var r := dirs + files;
    forall k | 0 <= k < |r| ensures r[k].isDir <==> k < |dirs| {
      if k < |dirs| {
        assert r[k] == dirs[k] && dirs[k] in dirs;
      } else {
        assert r[k] == files[k - |dirs|] && files[k - |dirs|] in files;
      }
    }
    forall i, j | 0 <= i < j < |r| && r[i].isDir == r[j].isDir
      ensures LexLe(Lower(r[i].name), Lower(r[j].name))
    {
      if j < |dirs| {
        assert ByLowerName()(dirs[i], dirs[j]);
      } else {
        assert ByLowerName()(files[i - |dirs|], files[j - |dirs|]);
      }
    }
  }

  /** The first index of an entry called `name`. */
  function FirstIndexOf(entries: seq<FileEntry>, name: string): (r: Option<nat>)
    ensures r.Some? ==> r.value < |entries| && entries[r.value].name == name
    ensures r.Some? ==> forall j :: 0 <= j < r.value ==> entries[j].name != name
    ensures r.None? ==> forall j :: 0 <= j < |entries| ==> entries[j].name != name
  {
    if entries == [] then None
    else if entries[0].name == name then Some(0)
    else match FirstIndexOf(entries[1..], name)
      case None => None
      case Some(k) => Some(k + 1)
  }

  /** The name of the directory shown on row `row`, if that row shows one. */
  function DirectoryAt(currentPath: string, entries: seq<FileEntry>, row: int): (r: Option<string>)
    ensures r.Some? <==> 0 <= row - Offset(currentPath) < |entries| && entries[row - Offset(currentPath)].isDir
    ensures r.Some? ==> r.value == entries[row - Offset(currentPath)].name
  {
    match EntryIndex(currentPath, row, |entries|)
    case Some(k) => if entries[k].isDir then Some(entries[k].name) else None
    case None => None
  }

  /** Textual's `clamp`: the bounds are swapped when they are the wrong way round. */
  function Clamp(value: int, minimum: int, maximum: int): (r: int)
    ensures minimum <= maximum ==> minimum <= r <= maximum
    ensures minimum <= value <= maximum ==> r == value
    ensures minimum <= maximum && value < minimum ==> r == minimum
    ensures minimum <= maximum && value > maximum ==> r == maximum
    ensures maximum < minimum ==> maximum <= r <= minimum
    ensures maximum < minimum && value < maximum ==> r == maximum
    ensures maximum < minimum && value > minimum ==> r == minimum
  {
    if minimum > maximum then
      (if value < maximum then maximum else if value > minimum then minimum else value)
    else if value < minimum then minimum
    else if value > maximum then maximum
    else value
  }

  /** Rows moved by page up and page down: half the height, at least one. */
  function PageSize(height: nat): (p: nat)
    ensures p >= 1 && (height >= 2 ==> p == height / 2)
  {
    if height / 2 > 1 then height / 2 else 1
  }

  /** Where `set_entries` leaves the cursor: on the first entry named
      `lastDir` when there is one and it is not on row 0, otherwise on row 0. */
  function LandingRow(entries: seq<FileEntry>, lastDir: string, currentPath: string): (row: nat)
    ensures row < Offset(currentPath) + |entries| || row == 0
    ensures row > 0 ==> entries[row - Offset(currentPath)].name == lastDir
  {
    var target := if lastDir != "" && FirstIndexOf(entries, lastDir).Some?
                  then FirstIndexOf(entries, lastDir).value + Offset(currentPath) else 0;
    if 0 < target < Offset(currentPath) + |entries| then target else 0
  }

  /** The landing row is the first entry named `lastDir`, and a listed name
      is always found: on its first index, after the `..` row when there is one. */
  lemma LandingRowFindsFirst(entries: seq<FileEntry>, lastDir: string, currentPath: string)
    ensures var row := LandingRow(entries, lastDir, currentPath);
      row > 0 ==> forall j :: 0 <= j < row - Offset(currentPath) ==> entries[j].name != lastDir
    ensures lastDir != "" && (exists j :: 0 <= j < |entries| && entries[j].name == lastDir) ==>
      LandingRow(entries, lastDir, currentPath) == FirstIndexOf(entries, lastDir).value + Offset(currentPath)
  {
  }

  /** The cursor is on a row (or at 0 / -1 in an empty table), the
      entries are in display order, only shown names are selected, and no
      directory name is waiting to place the cursor. */
  ghost predicate Consistent(cursor: int, rowCount: nat, entries: seq<FileEntry>, selected: set<string>, lastDirEntered: string) {
    && -1 <= cursor
    && (rowCount > 0 ==> cursor < rowCount)
    && (rowCount == 0 ==> cursor <= 0)
    && DisplayOrdered(entries)
    && lastDirEntered == ""
    && (forall n :: n in selected ==> exists i :: 0 <= i < |entries| && entries[i].name == n)
  }

  /** A listing just loaded, with nothing selected and the cursor on row 0
      or on a row of the table, is consistent. */
  lemma FreshListingConsistent(cursor: int, rowCount: nat, sorted: seq<FileEntry>, selected: set<string>, lastDirEntered: string)
    requires DisplayOrdered(sorted) && selected == {} && lastDirEntered == ""
    requires cursor == 0 || 0 <= cursor < rowCount
    ensures Consistent(cursor, rowCount, sorted, selected, lastDirEntered)
  {
  }

  class FileListView {
    var remoteName: string
    var currentPath: string
    /** The entries in the order the rows show them. */
    var entries: seq<FileEntry>
    var selected: set<string>
    var lastDirEntered: string
    /** The table's cursor row and number of rows. */
    var cursor: int
    var rowCount: nat

    /** The cursor is on a row (or at 0 / -1 in an empty table), the
        entries are in display order, only shown names are selected, and no
        directory name is waiting to place the cursor. */
    ghost predicate Valid()
      reads this
    {
      Consistent(cursor, rowCount, entries, selected, lastDirEntered)
    }

    /** A new panel on `remote`; the local remote starts in the user's home
        directory `home`, any other at its root. */
    constructor(remote: string, home: string)
      ensures Valid()
      ensures remoteName == remote
      ensures currentPath == (if Lower(remote) == "local" then home else "")
      ensures entries == [] && selected == {} && lastDirEntered == ""
      ensures cursor == 0 && rowCount == 0
    {
      remoteName := remote;
      if Lower(remote) == "local" {
        currentPath := home;
      } else {
        currentPath := "";
      }
      entries := [];
      selected := {};
      lastDirEntered := "";
      cursor := 0;
      rowCount := 0;
    }

    /** `set_entries`: show `newEntries` in display order, clear the
        selection, and put the cursor on the directory just left (when it
        is listed), otherwise on the first row. */
    method SetEntries(newEntries: seq<FileEntry>)
      modifies this
      ensures Valid()
      ensures entries == DisplayOrder(newEntries)
      ensures selected == {} && lastDirEntered == ""
      ensures remoteName == old(remoteName) && currentPath == old(currentPath)
      ensures rowCount == Offset(currentPath) + |entries|
      ensures cursor == LandingRow(entries, old(lastDirEntered), currentPath)
    {
      var sorted, newCursor := Arrange(newEntries, lastDirEntered, currentPath);
      entries, selected, lastDirEntered := sorted, {}, "";
      rowCount, cursor := Offset(currentPath) + |sorted|, newCursor;
      FreshListingConsistent(cursor, rowCount, entries, selected, lastDirEntered);
    }

    /** What `set_entries` computes before it touches the table: the
        entries in display order and the row the cursor lands on. */
    static method Arrange(newEntries: seq<FileEntry>, lastDir: string, currentPath: string)
      returns (sorted: seq<FileEntry>, row: nat)
      ensures sorted == DisplayOrder(newEntries) && DisplayOrdered(sorted)
      ensures row == LandingRow(sorted, lastDir, currentPath)
      ensures row == 0 || row < Offset(currentPath) + |sorted|
    {
      sorted := DisplayOrder(newEntries);
      DisplayOrderSorts(newEntries);
      row := CursorAfterLoad(sorted, lastDir, currentPath);
    }

    /** The cursor row `set_entries` ends on: `clear()` puts it on row 0, and
        it moves to the row of the directory just left when that row exists. */
    static method CursorAfterLoad(sorted: seq<FileEntry>, lastDir: string, currentPath: string) returns (row: nat)
      ensures row == LandingRow(sorted, lastDir, currentPath)
    {
      var offset := if currentPath != "" then 1 else 0;
      var targetRow := 0;
      if lastDir != "" {
        targetRow := RowOf(sorted, lastDir, offset);
      }
      var rowCount := offset + |sorted|;
      row := 0;
      if targetRow > 0 && targetRow < rowCount {
        row := Clamp(targetRow, 0, rowCount - 1);
      }
    }

    /** The row showing the first entry called `name`, or 0 when there is none. */
    static method RowOf(entries: seq<FileEntry>, name: string, offset: nat) returns (targetRow: nat)
      ensures targetRow == if FirstIndexOf(entries, name).Some? then FirstIndexOf(entries, name).value + offset else 0
    {
      targetRow := 0;
      var i := 0;
      while i < |entries|
        invariant 0 <= i <= |entries|
        invariant forall j :: 0 <= j < i ==> entries[j].name != name
      {
        if entries[i].name == name {
          targetRow := i + offset;
          return;
        }
        i := i + 1;
      }
    }

    /** `toggle_selection`: flip the selection of the entry under the cursor. */
    method ToggleSelection()
      requires Valid()
      modifies this`selected
      ensures Valid()
      ensures selected == Toggled(old(selected), entries, currentPath, cursor)
    {
      if entries == [] || cursor < 0 {
        return;
      }
      var offset := if currentPath != "" then 1 else 0;
      if currentPath != "" && cursor == 0 {
        return;
      }
      var actualIndex := cursor - offset;
      if actualIndex < 0 || actualIndex >= |entries| {
        return;
      }
      var name := entries[actualIndex].name;
      if name in selected {
        selected := selected - {name};
      } else {
        selected := selected + {name};
      }
    }

    /** `action_toggle_select_down` (and `action_toggle_select`): toggle,
        then go down a row unless on the last one. */
    method ToggleSelectDown()
      requires Valid()
      modifies this`selected, this`cursor
      ensures Valid()
      ensures selected == Toggled(old(selected), entries, currentPath, old(cursor))
      ensures cursor == if 0 <= old(cursor) < rowCount - 1 then old(cursor) + 1 else old(cursor)
    {
      ToggleSelection();
      if cursor >= 0 && cursor < rowCount - 1 {
        cursor := cursor + 1;
      }
    }

    /** `action_toggle_select_up`: toggle, then go up a row unless on the first. */
    method ToggleSelectUp()
      requires Valid()
      modifies this`selected, this`cursor
      ensures Valid()
      ensures selected == Toggled(old(selected), entries, currentPath, old(cursor))
      ensures cursor == if old(cursor) > 0 then old(cursor) - 1 else old(cursor)
    {
      ToggleSelection();
      if cursor > 0 {
        cursor := cursor - 1;
      }
    }

    /** `action_page_up`: half a screen up, stopping at the first row. */
    method PageUp(height: nat)
      requires Valid()
      modifies this`cursor
      ensures Valid()
      ensures rowCount > 0 ==> cursor == if old(cursor) - PageSize(height) > 0 then old(cursor) - PageSize(height) else 0
      ensures rowCount == 0 ==> cursor == 0
    {
      var pageSize := PageSize(height);
      var newRow := if cursor - pageSize > 0 then cursor - pageSize else 0;
      cursor := Clamp(newRow, 0, rowCount - 1);
    }

    /** `action_page_down`: half a screen down, stopping at the last row. */
    method PageDown(height: nat)
      requires Valid()
      modifies this`cursor
      ensures Valid()
      ensures rowCount > 0 ==> cursor == if old(cursor) + PageSize(height) < rowCount - 1 then old(cursor) + PageSize(height) else rowCount - 1
      ensures rowCount > 0 ==> cursor >= old(cursor)
      ensures rowCount == 0 ==> cursor == -1
    {
      var pageSize := PageSize(height);
      var newRow := if rowCount - 1 < cursor + pageSize then rowCount - 1 else cursor + pageSize;
      cursor := Clamp(newRow, 0, rowCount - 1);
    }

    /** `get_selected_entries`: the selected entries in list order, or else
        the entry under the cursor, or else nothing. */
    function SelectedEntries(): (r: seq<FileEntry>)
      reads this
      ensures selected != {} ==> IsSubsequence(r, entries)
      ensures selected != {} ==> forall e :: e in r <==> e in entries && e.name in selected
      ensures selected != {} ==> forall e :: multiset(r)[e] == if e.name in selected then multiset(entries)[e] else 0
      ensures selected == {} ==>
        r == match EntryIndex(currentPath, cursor, |entries|)
             case None => []
             case Some(k) => [entries[k]]
    {
      if selected != {} then EntriesNamed(entries, selected)
      else if entries == [] || cursor < 0 then []
      else
        var actualIndex := cursor - Offset(currentPath);
        if 0 <= actualIndex < |entries| then [entries[actualIndex]] else []
    }

    /** The `..` row of `on_data_table_row_selected`: remember the name of
        the directory being left, go up, and show the parent's `listing`. */
    method GoUp(listing: seq<FileEntry>)
      requires currentPath != ""
      modifies this
      ensures Valid()
      ensures currentPath == NavigateUp(old(currentPath)) && remoteName == old(remoteName)
      ensures entries == DisplayOrder(listing) && selected == {} && lastDirEntered == ""
      ensures rowCount == Offset(currentPath) + |entries|
      ensures cursor == LandingRow(entries, LastSegment(old(currentPath)), currentPath)
    {
      var dirParts := Split(RStripSlash(currentPath));
      lastDirEntered := dirParts[|dirParts| - 1];
      currentPath := NavigateUp(currentPath);
      SetEntries(listing);
    }

    /** A directory row of `on_data_table_row_selected`: go into directory
        `name` and show its `listing`. */
    method Enter(name: string, listing: seq<FileEntry>)
      requires Valid()
      modifies this
      ensures Valid()
      ensures currentPath == Join(old(currentPath), name) && remoteName == old(remoteName)
      ensures entries == DisplayOrder(listing) && selected == {} && lastDirEntered == ""
      ensures rowCount == Offset(currentPath) + |entries|
      ensures cursor == 0
    {
      currentPath := Join(currentPath, name);
      SetEntries(listing);
    }

    /** `on_data_table_row_selected`: the `..` row goes up, a directory row
        goes into that directory, anything else does nothing. `listing` is
        what listing the new directory returns. */
    method OpenRow(row: int, listing: seq<FileEntry>)
      requires Valid()
      modifies this
      ensures Valid()
      ensures row < 0 ==> unchanged(this)
      ensures row >= 0 && old(currentPath) != "" && row == 0 ==>
        && currentPath == NavigateUp(old(currentPath)) && remoteName == old(remoteName)
        && entries == DisplayOrder(listing) && selected == {}
        && rowCount == Offset(currentPath) + |entries|
        && cursor == LandingRow(entries, LastSegment(old(currentPath)), currentPath)
      ensures row >= 0 && !(old(currentPath) != "" && row == 0) && DirectoryAt(old(currentPath), old(entries), row).Some? ==>
        && currentPath == Join(old(currentPath), DirectoryAt(old(currentPath), old(entries), row).value)
        && remoteName == old(remoteName)
        && entries == DisplayOrder(listing) && selected == {}
        && rowCount == Offset(currentPath) + |entries|
        && cursor == 0
      ensures row >= 0 && !(old(currentPath) != "" && row == 0) && DirectoryAt(old(currentPath), old(entries), row).None? ==>
        unchanged(this)
    {
      if row < 0 {
        return;
      }
      if currentPath != "" && row == 0 {
        GoUp(listing);
        return;
      }
      var offset := if currentPath != "" then 1 else 0;
      var actualIndex := row - offset;
      if 0 <= actualIndex < |entries| {
        var entry := entries[actualIndex];
        if entry.isDir {
          assert DirectoryAt(currentPath, entries, row) == Some(entry.name);
          Enter(entry.name, listing);
        }
      }
    }
  }
}
