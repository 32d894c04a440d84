/**
 * The drive pages. The recent, shared and private pages share one file
 * table with a multi-selection (the same handlers over different mock
 * data); the private page puts a one-time-code gate in front of its table;
 * the home page deletes and renames one file through confirmation modals.
 */
module Drive {
  import opened Wrappers
  import opened Seqs
  import Text
  import OtpModal

  datatype File = File(id: int, title: string, kind: string, status: string, modified: string, size: string)

  /** `files.map(f => f.id)`. */
  function FileIds(files: seq<File>): (ids: seq<int>)
    ensures |ids| == |files| && forall i :: 0 <= i < |files| ==> ids[i] == files[i].id
  {
    seq(|files|, i requires 0 <= i < |files| => files[i].id)
  }

  /** `toggleSelect(id)`: remove the id if it is selected, append it otherwise. */
  function Toggle(sel: seq<int>, id: int): (r: seq<int>)
    ensures id in r <==> id !in sel
    ensures forall x :: x != id ==> (x in r <==> x in sel)
    ensures id !in sel ==> r == sel + [id]
    ensures id in sel ==> IsSubseq(r, sel)
  {
    if id in sel then
      FilterIsSubseq(sel, i => i != id);
      Filter(sel, i => i != id)
    else sel + [id]
  }

  /** Toggling an unselected id twice restores the selection. */
  lemma ToggleTwiceUnselected(sel: seq<int>, id: int)
    requires id !in sel
    ensures Toggle(Toggle(sel, id), id) == sel
  {
    var p := (i: int) => i != id;
    FilterAll(sel, p);
    assert Filter(sel + [id], p) == sel by {
      FilterAppend(sel, [id], p);
      assert Filter([id], p) == [];
    }
  }

  /** Toggling a selected id twice keeps the set of ids but moves it to the end: [1, 2] becomes [2, 1]. */
  lemma ToggleTwiceReorders()
    ensures Toggle(Toggle([1, 2], 1), 1) == [2, 1]
  {
    var p := (i: int) => i != 1;
    assert [1, 2][1..] == [2];
    assert Filter([1, 2], p) == [2];
  }

  lemma {:induction false} FilterAppend<T>(a: seq<T>, b: seq<T>, p: T -> bool)
    ensures Filter(a + b, p) == Filter(a, p) + Filter(b, p)
  {
    if a == [] {
      assert a + b == b;
    } else {
      var ab := a + b;
      assert ab[0] == a[0] && ab[1..] == a[1..] + b;
      FilterAppend(a[1..], b, p);
      if p(a[0]) {
        calc {
          Filter(ab, p);
          [a[0]] + Filter(a[1..] + b, p);
          [a[0]] + (Filter(a[1..], p) + Filter(b, p));
          ([a[0]] + Filter(a[1..], p)) + Filter(b, p);
        }
      }
    }
  }

  /** `selectAll`: clear when the lengths are equal, else select every file in file order. */
  function SelectAllOf(sel: seq<int>, files: seq<File>): (r: seq<int>)
    ensures |sel| == |files| ==> r == []
    ensures |sel| != |files| ==> |r| == |files| && forall i :: 0 <= i < |files| ==> r[i] == files[i].id
  {
    if |sel| == |files| then [] else FileIds(files)
  }

  /** `bulkDelete`'s file list: the files whose id is not selected, in order. */
  function Unselected(files: seq<File>, sel: seq<int>): (r: seq<File>)
    ensures forall f :: f in r <==> f in files && f.id !in sel
    ensures IsSubseq(r, files)
  {
    FilterIsSubseq(files, (f: File) => f.id !in sel);
    Filter(files, (f: File) => f.id !in sel)
  }

  /** `onDelete(id)`'s file list: every file but those with that id, in order. */
  function WithoutFile(files: seq<File>, id: int): (r: seq<File>)
    ensures forall f :: f in r <==> f in files && f.id != id
    ensures IsSubseq(r, files)
  {
    FilterIsSubseq(files, (f: File) => f.id != id);
    Filter(files, (f: File) => f.id != id)
  }

  /** `onDelete(id)`'s selection: the same selection without that id, in order. */
  function Deselected(sel: seq<int>, id: int): (r: seq<int>)
    ensures forall x :: x in r <==> x in sel && x != id
    ensures IsSubseq(r, sel)
  {
    FilterIsSubseq(sel, x => x != id);
    Filter(sel, x => x != id)
  }

  /** The header checkbox. */
  datatype Header = Header(checked: bool, indeterminate: bool)

  function HeaderOf(sel: seq<int>, files: seq<File>): (h: Header)
    ensures !(h.checked && h.indeterminate)
    ensures h.checked ==> |files| > 0
    ensures h.indeterminate ==> |sel| > 0
  {
    Header(|sel| == |files| && |files| > 0, |sel| > 0 && |sel| < |files|)
  }

  /** Every selected id belongs to a file, file ids are distinct, and no id is selected twice. */
  predicate Consistent(sel: seq<int>, files: seq<File>) {
    NoDup(FileIds(files)) && NoDup(sel) && forall i :: 0 <= i < |sel| ==> sel[i] in FileIds(files)
  }

  /** Under that invariant the length comparison means "every file is selected". */
  lemma AllSelectedIffLengths(sel: seq<int>, files: seq<File>)
    requires Consistent(sel, files)
    ensures |sel| == |files| <==> Elems(FileIds(files)) <= Elems(sel)
  {
    var ids := FileIds(files);
    assert Elems(sel) <= Elems(ids);
    NoDupCard(sel);
    NoDupCard(ids);
    SubsetCard(Elems(sel), Elems(ids));
    if Elems(ids) <= Elems(sel) {
      assert Elems(ids) == Elems(sel);
    }
  }

  /** The header is checked exactly when there are files and all are selected, and indeterminate when some but not all are. */
  lemma HeaderMeaning(sel: seq<int>, files: seq<File>)
    requires Consistent(sel, files)
    ensures HeaderOf(sel, files).checked <==> |files| > 0 && Elems(FileIds(files)) <= Elems(sel)
    ensures HeaderOf(sel, files).indeterminate <==> sel != [] && !(Elems(FileIds(files)) <= Elems(sel))
  {
    AllSelectedIffLengths(sel, files);
    SubsetCard(Elems(sel), Elems(FileIds(files)));
    NoDupCard(sel);
    NoDupCard(FileIds(files));
  }

  /** Select-all either clears a full selection or selects everything. */
  lemma SelectAllMeaning(sel: seq<int>, files: seq<File>)
    requires Consistent(sel, files)
    ensures Elems(FileIds(files)) <= Elems(sel) ==> SelectAllOf(sel, files) == []
    ensures !(Elems(FileIds(files)) <= Elems(sel)) ==> Elems(SelectAllOf(sel, files)) == Elems(FileIds(files))
    ensures Consistent(SelectAllOf(sel, files), files)
  {
    AllSelectedIffLengths(sel, files);
  }

  /** Toggling a file's id keeps the invariant. */
  lemma ToggleConsistent(sel: seq<int>, files: seq<File>, id: int)
    requires Consistent(sel, files) && id in FileIds(files)
    ensures Consistent(Toggle(sel, id), files)
  {
    if id in sel {
      FilterNoDup(sel, i => i != id);
    }
  }

  /** Deleting keeps the invariant. */
  lemma DeleteConsistent(sel: seq<int>, files: seq<File>, id: int)
    requires Consistent(sel, files)
    ensures Consistent(Deselected(sel, id), WithoutFile(files, id))
    ensures Consistent([], Unselected(files, sel))
  {
    FilteredIdsNoDup(files, (f: File) => f.id != id);
    FilteredIdsNoDup(files, (f: File) => f.id !in sel);
    FilterNoDup(sel, x => x != id);
    DeselectedInRest(sel, files, id);
  }

  lemma DeselectedInRest(sel: seq<int>, files: seq<File>, id: int)
    requires forall i :: 0 <= i < |sel| ==> sel[i] in FileIds(files)
    ensures forall i :: 0 <= i < |Deselected(sel, id)| ==> Deselected(sel, id)[i] in FileIds(WithoutFile(files, id))
  {
    var rest := WithoutFile(files, id);
    var d := Deselected(sel, id);
    forall i | 0 <= i < |d| ensures d[i] in FileIds(rest) {
      IdInRest(files, id, d[i]);
    }
  }

  lemma IdInRest(files: seq<File>, id: int, x: int)
    requires x in FileIds(files) && x != id
    ensures x in FileIds(WithoutFile(files, id))
  {
    var rest := WithoutFile(files, id);
    var k :| 0 <= k < |files| && FileIds(files)[k] == x;
    assert files[k] in rest;
    var m :| 0 <= m < |rest| && rest[m] == files[k];
    assert FileIds(rest)[m] == x;
  }

  lemma {:induction false} FilteredIdsNoDup(files: seq<File>, p: File -> bool)
    requires NoDup(FileIds(files))
    ensures NoDup(FileIds(Filter(files, p)))
  {
    if files != [] {
      var t := files[1..];
      TailIdsNoDup(files);
      FilteredIdsNoDup(t, p);
      if p(files[0]) {
        HeadIdNotInFilter(files, p);
        ConsIdsNoDup(files[0], Filter(t, p));
      }
    }
  }

  lemma TailIdsNoDup(files: seq<File>)
    requires files != [] && NoDup(FileIds(files))
    ensures NoDup(FileIds(files[1..]))
  {
    var ids := FileIds(files);
    var t := FileIds(files[1..]);
    forall i, j | 0 <= i < j < |t| ensures t[i] != t[j] {
      assert t[i] == ids[i + 1] && t[j] == ids[j + 1];
    }
  }

  lemma HeadIdNotInFilter(files: seq<File>, p: File -> bool)
    requires files != [] && NoDup(FileIds(files))
    ensures forall i :: 0 <= i < |Filter(files[1..], p)| ==> Filter(files[1..], p)[i].id != files[0].id
  {
    var r := Filter(files[1..], p);
    var ids := FileIds(files);
    forall i | 0 <= i < |r| ensures r[i].id != files[0].id {
      var k :| 0 <= k < |files[1..]| && files[1..][k] == r[i];
      assert ids[k + 1] == r[i].id;
    }
  }

  lemma ConsIdsNoDup(f: File, r: seq<File>)
    requires NoDup(FileIds(r))
    requires forall i :: 0 <= i < |r| ==> r[i].id != f.id
    ensures NoDup(FileIds([f] + r))
  {
    var ids := FileIds([f] + r);
    var t := FileIds(r);
    forall i, j | 0 <= i < j < |ids| ensures ids[i] != ids[j] {
      assert ids[j] == t[j - 1];
      if i > 0 {
        assert ids[i] == t[i - 1];
      }
    }
  }

  /** The file table a listing page shows, with its selection. */
  class FileTable {
    var files: seq<File>
    var selected: seq<int>

    ghost predicate Valid()
      reads this
    {
      Consistent(selected, files)
    }

    constructor (initial: seq<File>)
      requires NoDup(FileIds(initial))
      ensures Valid() && files == initial && selected == []
    {
      files, selected := initial, [];
    }

    method ToggleSelect(id: int)
      requires Valid() && id in FileIds(files)
      modifies this
      ensures Valid() && files == old(files) && selected == Toggle(old(selected), id)
    {
      ToggleConsistent(selected, files, id);
      selected := Toggle(selected, id);
    }

    method SelectAll()
      requires Valid()
      modifies this
      ensures Valid() && files == old(files) && selected == SelectAllOf(old(selected), files)
    {
      SelectAllMeaning(selected, files);
      if |selected| == |files| {
        selected := [];
      } else {
        selected := FileIds(files);
      }
    }

    method BulkDelete()
      requires Valid()
      modifies this
      ensures Valid() && files == Unselected(old(files), old(selected)) && selected == []
    {
      DeleteConsistent(selected, files, 0);
      files := Unselected(files, selected);
      selected := [];
    }

    method OnDelete(id: int)
      requires Valid()
      modifies this
      ensures Valid() && files == WithoutFile(old(files), id) && selected == Deselected(old(selected), id)
    {
      DeleteConsistent(selected, files, id);
      files := WithoutFile(files, id);
      selected := Deselected(selected, id);
    }

    function HeaderState(): (h: Header)
      reads this
      ensures h == HeaderOf(selected, files)
    {
      HeaderOf(selected, files)
    }
  }

  /** The private page's gate in front of its table. */
  class PrivatePage {
    const table: FileTable
    var authenticated: bool
    var showOtp: bool
    var showAuthError: bool
    /** The redirect scheduled by closing the modal. */
    var redirect: Option<string>

    constructor (initial: seq<File>)
      requires NoDup(FileIds(initial))
      ensures fresh(table) && table.Valid() && table.files == initial && table.selected == []
      ensures !authenticated && showOtp && !showAuthError && redirect.None?
    {
      table := new FileTable(initial);
      authenticated, showOtp, showAuthError, redirect := false, true, false, None;
    }

    /** The modal is shown while unauthenticated and not dismissed. */
    function ModalShown(): bool
      reads this
    {
      !authenticated && showOtp
    }

    /** The table is shown exactly when authenticated. */
    function TableShown(): bool
      reads this
    {
      authenticated
    }

    /** `onVerify(code)`: a six-character code unlocks the table; any other code changes nothing. */
    method OnVerify(code: string)
      modifies this
      ensures redirect == old(redirect)
      ensures |code| == 6 ==> authenticated && !showOtp && !showAuthError
      ensures |code| != 6 ==> (
        && authenticated == old(authenticated) && showOtp == old(showOtp)
        && showAuthError == old(showAuthError))
    {
      if |code| == 6 {
        authenticated, showOtp, showAuthError := true, false, false;
      }
    }

    /** `onClose`: hides the modal, shows the error and schedules a move to the recent page, without unlocking. */
    method OnClose()
      modifies this
      ensures authenticated == old(authenticated) && !showOtp && showAuthError
      ensures redirect == Some("/drive/recent")
    {
      showOtp, showAuthError := false, true;
      redirect := Some("/drive/recent");
    }

    /** Pressing Verify on a fully filled code modal unlocks the table. */
    method VerifyFromModal(m: OtpModal.CodeModal)
      requires m.Valid() && m.VerifyEnabled()
      modifies this
      ensures authenticated && !showOtp && !showAuthError && !ModalShown() && TableShown()
    {
      var code := m.ClickVerify();
      OnVerify(code.value);
    }
  }

  // ------------------------------------------------------------------- home

  datatype HomeFile = HomeFile(id: int, name: string, kind: string, modified: string)

  /** `prev.filter(f => f.id !== id)`. */
  function RemoveHomeFile(files: seq<HomeFile>, id: int): (r: seq<HomeFile>)
    ensures forall f :: f in r <==> f in files && f.id != id
    ensures IsSubseq(r, files)
  {
    FilterIsSubseq(files, (f: HomeFile) => f.id != id);
    Filter(files, (f: HomeFile) => f.id != id)
  }

  /** `prev.map(f => f.id === id ? { ...f, name } : f)`. */
  function RenameHomeFile(files: seq<HomeFile>, id: int, name: string): (r: seq<HomeFile>)
    ensures |r| == |files|
    ensures forall i :: 0 <= i < |files| && files[i].id == id ==> r[i] == files[i].(name := name)
    ensures forall i :: 0 <= i < |files| && files[i].id != id ==> r[i] == files[i]
  {
    if files == [] then []
    else
      var rest := RenameHomeFile(files[1..], id, name);
      var r := [if files[0].id == id then files[0].(name := name) else files[0]] + rest;
      assert forall i :: 1 <= i < |files| ==> r[i] == rest[i - 1] && files[i] == files[1..][i - 1];
      r
  }

  /** Renaming never changes which files there are or their ids. */
  lemma RenameKeepsIds(files: seq<HomeFile>, id: int, name: string)
    ensures forall i :: 0 <= i < |files| ==> RenameHomeFile(files, id, name)[i].id == files[i].id
    ensures RemoveHomeFile(RenameHomeFile(files, id, name), id) == RemoveHomeFile(files, id)
  {
    RemoveRenamed(files, id, name);
  }

  lemma {:induction false} RemoveRenamed(files: seq<HomeFile>, id: int, name: string)
    ensures RemoveHomeFile(RenameHomeFile(files, id, name), id) == RemoveHomeFile(files, id)
  {
    if files != [] {
      RemoveRenamed(files[1..], id, name);
    }
  }

  /**
   * The name `confirmRename` applies: the trimmed value, or none when the
   * value is missing or trims to the empty string.
   */
  function NewName(value: Option<string>): Option<string> {
    if value.Some? && Text.Trim(value.value) != "" then Some(Text.Trim(value.value)) else None
  }

  /** A rename applies exactly when the value holds a non-whitespace character, and then it is the trimmed value. */
  lemma NewNameMeaning(value: Option<string>)
    ensures NewName(value).Some? <==> value.Some? && !Text.AllSpace(value.value)
    ensures NewName(value).Some? ==> NewName(value).value == Text.Trim(value.value) && NewName(value).value != ""
  {
    if value.Some? {
      Text.TrimEmptyIff(value.value);
    }
  }

  class HomePage {
    var recentFiles: seq<HomeFile>
    var selectedFile: Option<HomeFile>
    var deleteOpen: bool
    var renameOpen: bool

    constructor (initial: seq<HomeFile>)
      ensures recentFiles == initial && selectedFile.None? && !deleteOpen && !renameOpen
    {
      recentFiles, selectedFile, deleteOpen, renameOpen := initial, None, false, false;
    }

    method HandleDeleteClick(file: HomeFile)
      modifies this
      ensures selectedFile == Some(file) && deleteOpen
      ensures recentFiles == old(recentFiles) && renameOpen == old(renameOpen)
    {
      selectedFile, deleteOpen := Some(file), true;
    }

    method HandleRenameClick(file: HomeFile)
      modifies this
      ensures selectedFile == Some(file) && renameOpen
      ensures recentFiles == old(recentFiles) && deleteOpen == old(deleteOpen)
    {
      selectedFile, renameOpen := Some(file), true;
    }

    /** `confirmDelete`: without a selection nothing happens. */
    method ConfirmDelete()
      modifies this
      ensures renameOpen == old(renameOpen)
      ensures old(selectedFile).None? ==> recentFiles == old(recentFiles) && selectedFile.None? && deleteOpen == old(deleteOpen)
      ensures old(selectedFile).Some? ==> (
        && recentFiles == RemoveHomeFile(old(recentFiles), old(selectedFile).value.id)
        && selectedFile.None? && !deleteOpen)
    {
      if selectedFile.None? {
        return;
      }
      recentFiles := RemoveHomeFile(recentFiles, selectedFile.value.id);
      selectedFile, deleteOpen := None, false;
    }

    /**
     * `confirmRename(value)`: without a selection nothing happens; a value
     * that is missing or blank after trimming closes the modal and renames
     * nothing; otherwise the selected file takes the trimmed name.
     */
    method ConfirmRename(value: Option<string>)
      modifies this
      ensures deleteOpen == old(deleteOpen)
      ensures old(selectedFile).None? ==> recentFiles == old(recentFiles) && selectedFile.None? && renameOpen == old(renameOpen)
      ensures old(selectedFile).Some? ==> selectedFile.None? && !renameOpen
      ensures old(selectedFile).Some? && NewName(value).None? ==> recentFiles == old(recentFiles)
      ensures old(selectedFile).Some? && NewName(value).Some? ==>
        recentFiles == RenameHomeFile(old(recentFiles), old(selectedFile).value.id, NewName(value).value)
    {
      if selectedFile.Some? {
        var name := NewName(value);
        if name.Some? {
          recentFiles := RenameHomeFile(recentFiles, selectedFile.value.id, name.value);
        }
        selectedFile, renameOpen := None, false;
      }
    }
  }
}
