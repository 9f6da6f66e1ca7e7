/** The editor state of public/app.js as one object: the `notes` array, `currentNoteId`,
    the three input fields and the editor selection, the auto-save setting, the version
    history `noteVersions`, and `viewMode`. Each handler is a method that runs to
    completion; timestamps, generated ids, the `confirm` answer and the parsed import file
    are parameters. Persistence, rendering and toasts are left out. */
module NoteApp {
  import opened Wrappers
  import opened Text
  import opened Notes
  import opened Versions
  import Editing

  /** One element of an imported backup array: an object, with `None` where a field is
      missing (any element other than an object or `null` reads as one without fields), or
      `null`, whose `note.title` throws. */
  datatype ImportedNote =
    | ImportedNote(title: Option<string>, alias: Option<string>, content: Option<string>, createdAt: Option<string>)
    | NullElement

  /** `note.title && note.content`: both present and non-empty. */
  predicate Accepted(e: ImportedNote) {
    e.ImportedNote? && e.title.Some? && e.title.value != "" && e.content.Some? && e.content.value != ""
  }

  /** The position of the first `null` element, or the length when there is none: the
      `forEach` gets this far before it throws. */
  function FirstNull(entries: seq<ImportedNote>): (k: nat)
    ensures k <= |entries| && (k < |entries| ==> entries[k].NullElement?)
    ensures forall j :: 0 <= j < k ==> !entries[j].NullElement?
  {
    if entries == [] then 0
    else if entries[0].NullElement? then 0
    else 1 + FirstNull(entries[1..])
  }

  /** The note `handleJsonImport` makes of an accepted element. */
  function ImportedAsNote(e: ImportedNote, id: string, now: string): Note
    requires Accepted(e)
  {
    Note(id, e.title.value, OrDefault(e.alias, ""), e.content.value, OrDefault(e.createdAt, now), now)
  }

  /** The notes `handleJsonImport` puts in front of the list, `ids[i]` being the id made
      for `entries[i]`: each accepted element in turn is unshifted, so the last one ends
      up first. */
  function ImportedNotes(entries: seq<ImportedNote>, ids: seq<string>, now: string): (r: seq<Note>)
    requires |ids| == |entries|
    ensures |r| <= |entries|
    ensures forall k :: 0 <= k < |r| ==> r[k].title != "" && r[k].content != "" && r[k].updatedAt == now
    decreases |entries|
  {
    if entries == [] then []
    else
      var n := |entries| - 1;
      var front := if Accepted(entries[n]) then [ImportedAsNote(entries[n], ids[n], now)] else [];
      front + ImportedNotes(entries[..n], ids[..n], now)
  }

  /** One more element of the file puts its note, if accepted, in front of the notes of
      the elements before it. */
  lemma ImportStep(entries: seq<ImportedNote>, ids: seq<string>, now: string, i: nat)
    requires |ids| == |entries| && i < |entries|
    ensures ImportedNotes(entries[..i + 1], ids[..i + 1], now) ==
      (if Accepted(entries[i]) then [ImportedAsNote(entries[i], ids[i], now)] else []) + ImportedNotes(entries[..i], ids[..i], now)
    ensures AcceptedCount(entries[..i + 1]) == (if Accepted(entries[i]) then 1 else 0) + AcceptedCount(entries[..i])
  {
    assert entries[..i + 1][..i] == entries[..i] && ids[..i + 1][..i] == ids[..i];
  }

  /** Number of accepted elements. */
  function AcceptedCount(entries: seq<ImportedNote>): nat {
    if entries == [] then 0
    else (if Accepted(entries[|entries| - 1]) then 1 else 0) + AcceptedCount(entries[..|entries| - 1])
  }

  /** Exactly the accepted elements are imported. */
  lemma {:induction false} ImportedNotesCount(entries: seq<ImportedNote>, ids: seq<string>, now: string)
    requires |ids| == |entries|
    ensures |ImportedNotes(entries, ids, now)| == AcceptedCount(entries)
    decreases |entries|
  {
    if entries != [] {
      var n := |entries| - 1;
      ImportedNotesCount(entries[..n], ids[..n], now);
    }
  }

  /** With ids that are distinct and new to the list, an import keeps note ids distinct. */
  lemma {:induction false} ImportKeepsIdsUnique(entries: seq<ImportedNote>, ids: seq<string>, now: string, notes: seq<Note>)
    requires |ids| == |entries| && IdsUnique(notes)
    requires forall j, k :: 0 <= j < k < |ids| ==> ids[j] != ids[k]
    requires forall j, k :: 0 <= j < |ids| && 0 <= k < |notes| ==> ids[j] != notes[k].id
    ensures IdsUnique(ImportedNotes(entries, ids, now) + notes)
    ensures forall k :: 0 <= k < |ImportedNotes(entries, ids, now)| ==> ImportedNotes(entries, ids, now)[k].id in ids
    decreases |entries|
  {
    if entries != [] {
      var n := |entries| - 1;
      ImportKeepsIdsUnique(entries[..n], ids[..n], now, notes);
      var rest := ImportedNotes(entries[..n], ids[..n], now) + notes;
      var front := if Accepted(entries[n]) then [ImportedAsNote(entries[n], ids[n], now)] else [];
      assert ImportedNotes(entries, ids, now) + notes == front + rest;
      if front != [] {
        // the new note's id is ids[n], found neither among the earlier imports nor in notes
        forall k | 0 <= k < |rest|
          ensures rest[k].id != ids[n]
        {
          var m := |ImportedNotes(entries[..n], ids[..n], now)|;
          if k < m {
            assert rest[k].id in ids[..n];
          } else {
            assert rest[k] == notes[k - m];
          }
        }
      }
    }
  }

  /** What `deleteCurrentNote` leaves in `notes`: nothing changes without a current note,
      without confirmation or when the id is not in the list; otherwise the note goes, and
      a fresh note takes its place if the list became empty. */
  function DeleteResult(notes: seq<Note>, current: Option<string>, confirmed: bool, freshId: string, now: string): (r: seq<Note>)
    ensures !DeleteApplies(notes, current, confirmed) ==> r == notes
    ensures DeleteApplies(notes, current, confirmed) ==> |r| == if |notes| > 1 then |notes| - 1 else 1
  {
    if !DeleteApplies(notes, current, confirmed) then notes
    else
      var rest := RemoveAt(notes, FindIndex(notes, current.value).value);
      if |rest| > 0 then rest else [NewNote(freshId, now)]
  }

  /** `deleteCurrentNote` goes ahead: there is a current note, the user confirmed, and the
      note is in the list. */
  predicate DeleteApplies(notes: seq<Note>, current: Option<string>, confirmed: bool) {
    current.Some? && current.value != "" && confirmed && FindIndex(notes, current.value).Some?
  }

  /** Deleting never leaves the list empty, and removes exactly the current note. */
  lemma DeleteRemovesCurrent(notes: seq<Note>, current: string, freshId: string, now: string)
    requires current != "" && FindIndex(notes, current).Some?
    requires IdsUnique(notes) && freshId != current
    ensures var r := DeleteResult(notes, Some(current), true, freshId, now);
      var i := FindIndex(notes, current).value;
      |r| >= 1 && notes[i].id == current &&
      (|notes| > 1 ==> r == RemoveAt(notes, i)) &&
      (|notes| == 1 ==> r == [NewNote(freshId, now)]) &&
      (forall k :: 0 <= k < |r| ==> r[k].id != current)
  {
    var i := FindIndex(notes, current).value;
    var r := DeleteResult(notes, Some(current), true, freshId, now);
    if |notes| > 1 {
      forall k | 0 <= k < |r|
        ensures r[k].id != current
      {
        var k' := if k < i then k else k + 1;
        assert r[k] == notes[k'] && k' != i;
      }
    }
  }

  /** Where `autoSave` writes, if it gets that far: the position of the current note. */
  function AutoSaveIndex(notes: seq<Note>, current: Option<string>, enabled: bool): (r: Option<nat>)
    ensures r.Some? ==> enabled && current.Some? && r.value < |notes| && notes[r.value].id == current.value
  {
    if !enabled || current.None? || current.value == "" then None else FindIndex(notes, current.value)
  }

  /** The part of the editor state `autoSave` may change. */
  datatype AutoSaveState = AutoSaveState(notes: seq<Note>, versions: map<string, seq<Version>>, aliasField: string)

  /** What `autoSave` leaves: nothing changes when it is switched off or has no note to
      write; on an alias conflict only the alias input is put back to the stored alias;
      otherwise the note is edited in place, after the previous content has gone into the
      history if the change of length is large. */
  function AutoSaveStep(notes: seq<Note>, versions: map<string, seq<Version>>, current: Option<string>,
                        enabled: bool, f: Fields, now: string): (r: AutoSaveState)
    ensures |r.notes| == |notes|
    ensures !enabled ==> r == AutoSaveState(notes, versions, f.alias)
    ensures r.versions != versions ==> enabled && current.Some? && current.value in r.versions
  {
    match AutoSaveIndex(notes, current, enabled)
    case None => AutoSaveState(notes, versions, f.alias)
    case Some(i) =>
      if AliasTaken(notes, NormalizeAlias(f.alias), current.value) then AutoSaveState(notes, versions, notes[i].alias)
      else
        var recorded := if ShouldRecordVersion(f.content, notes[i].content)
          then SaveVersionResult(versions, current.value, notes[i].content, now) else versions;
        AutoSaveState(notes[i := Edited(notes[i], f, now)], recorded, f.alias)
  }

  /** The notes `autoSave` leaves are those of the in-place store operation when auto-save
      is on, and the old ones when it is off. */
  lemma AutoSaveStepNotes(notes: seq<Note>, versions: map<string, seq<Version>>, current: Option<string>,
                          enabled: bool, f: Fields, now: string)
    ensures AutoSaveStep(notes, versions, current, enabled, f, now).notes ==
      if enabled then AutoSaveResult(notes, current, f, now) else notes
  {
  }

  /** `autoSave` records a version only for a large change to a non-empty note that it
      writes, and then the newest version holds the content the note had before. */
  lemma AutoSaveRecordsOldContent(notes: seq<Note>, versions: map<string, seq<Version>>, current: string, f: Fields, now: string)
    requires AllCapped(versions)
    ensures var r := AutoSaveStep(notes, versions, Some(current), true, f, now).versions;
      r != versions ==>
        FindIndex(notes, current).Some? && !AliasTaken(notes, NormalizeAlias(f.alias), current) &&
        var i := FindIndex(notes, current).value;
        ShouldRecordVersion(f.content, notes[i].content) &&
        current in r && |r[current]| > 0 && r[current][0].content == notes[i].content && AllCapped(r)
  {
    match AutoSaveIndex(notes, Some(current), true)
    case None =>
      AutoSaveSkips(notes, versions, Some(current), true, f, now);
    case Some(i) =>
      if AliasTaken(notes, NormalizeAlias(f.alias), current) {
        AutoSaveConflicts(notes, versions, current, f, now, i);
      } else {
        AutoSaveWrites(notes, versions, current, f, now, i);
        SaveVersionNewestFirst(versions, current, notes[i].content, now);
      }
  }

  /** The outcome of `autoSave` when it stops at the gate or finds no note. */
  lemma AutoSaveSkips(notes: seq<Note>, versions: map<string, seq<Version>>, current: Option<string>, enabled: bool, f: Fields, now: string)
    requires AutoSaveIndex(notes, current, enabled).None?
    ensures AutoSaveStep(notes, versions, current, enabled, f, now) == AutoSaveState(notes, versions, f.alias)
  {
  }

  /** The outcome of `autoSave` on an alias conflict. */
  lemma AutoSaveConflicts(notes: seq<Note>, versions: map<string, seq<Version>>, current: string, f: Fields, now: string, i: nat)
    requires AutoSaveIndex(notes, Some(current), true) == Some(i)
    requires AliasTaken(notes, NormalizeAlias(f.alias), current)
    ensures AutoSaveStep(notes, versions, Some(current), true, f, now) == AutoSaveState(notes, versions, notes[i].alias)
  {
  }

  /** The outcome of `autoSave` when it writes. */
  lemma AutoSaveWrites(notes: seq<Note>, versions: map<string, seq<Version>>, current: string, f: Fields, now: string, i: nat)
    requires AutoSaveIndex(notes, Some(current), true) == Some(i)
    requires !AliasTaken(notes, NormalizeAlias(f.alias), current)
    ensures AutoSaveStep(notes, versions, Some(current), true, f, now) ==
      AutoSaveState(notes[i := Edited(notes[i], f, now)],
        if ShouldRecordVersion(f.content, notes[i].content) then SaveVersionResult(versions, current, notes[i].content, now) else versions,
        f.alias)
  {
  }

  /** The outcome of `saveNote` when it writes. */
  lemma SaveWrites(notes: seq<Note>, current: string, f: Fields, now: string, i: nat)
    requires current != "" && FindIndex(notes, current) == Some(i)
    requires !AliasTaken(notes, NormalizeAlias(f.alias), current)
    ensures SaveResult(notes, Some(current), f, now) == MoveToFront(notes, i, Edited(notes[i], f, now))
  {
  }

  class NoteEditor {
    var notes: seq<Note>
    var currentNoteId: Option<string>
    var titleField: string
    var aliasField: string
    var editorText: string
    var selStart: nat
    var selEnd: nat
    var autoSaveEnabled: bool
    var versions: map<string, seq<Version>>
    var viewMode: string

    /** The editor selection lies inside the text. */
    predicate Valid()
      reads this
    {
      selStart <= selEnd <= |editorText|
    }

    /** The state before `loadNotes`, with the default settings. */
    constructor()
      ensures Valid() && notes == [] && currentNoteId == None && autoSaveEnabled && versions == map[]
      ensures viewMode == Editing.SPLIT
    {
      notes := [];
      currentNoteId := None;
      titleField, aliasField, editorText := "", "", "";
      selStart, selEnd := 0, 0;
      autoSaveEnabled := true;
      versions := map[];
      viewMode := Editing.SPLIT;
    }

    /** `loadNote(noteId)`: the note's fields go into the inputs. Writing a different
        editor value puts the caret at its end; writing the value the editor already
        holds leaves the selection where it was. */
    method LoadNote(noteId: string)
      modifies this`currentNoteId, this`titleField, this`aliasField, this`editorText, this`selStart, this`selEnd
      ensures match FindIndex(notes, noteId)
        case None => unchanged(this)
        case Some(i) =>
          currentNoteId == Some(noteId) && titleField == notes[i].title &&
          aliasField == notes[i].alias && editorText == notes[i].content &&
          if editorText == old(editorText) then selStart == old(selStart) && selEnd == old(selEnd)
          else selStart == selEnd == |editorText|
      ensures old(Valid()) ==> Valid()
    {
      var i := FindIndex(notes, noteId);
      if i.None? {
        return;
      }
      var note := notes[i.value];
      currentNoteId := Some(noteId);
      titleField := note.title;
      aliasField := note.alias;
      if editorText != note.content {
        editorText := note.content;
        selStart, selEnd := |editorText|, |editorText|;
      }
    }

    /** `createNewNote()` with the generated id `id` at time `now`. */
    method CreateNewNote(id: string, now: string)
      requires Valid()
      modifies this`notes, this`currentNoteId, this`titleField, this`aliasField, this`editorText, this`selStart, this`selEnd
      ensures notes == [NewNote(id, now)] + old(notes)
      ensures currentNoteId == Some(id)
      ensures titleField == UNTITLED && aliasField == "" && editorText == ""
      ensures Valid()
    {
      notes := [NewNote(id, now)] + notes;
      LoadNote(id);
    }

    /** `saveNote()` at time `now`. */
    method SaveNote(now: string)
      modifies this`notes
      ensures notes == old(SaveResult(notes, currentNoteId, Fields(titleField, aliasField, editorText), now))
    {
      if currentNoteId.None? || currentNoteId.value == "" {
        return;
      }
      var noteIndex := FindIndex(notes, currentNoteId.value);
      if noteIndex.None? {
        return;
      }
      var i := noteIndex.value;
      var fields := Fields(titleField, aliasField, editorText);
      var alias := NormalizeAlias(aliasField);
      if alias != "" && AliasTaken(notes, alias, currentNoteId.value) {
        return;
      }
      SaveWrites(notes, currentNoteId.value, fields, now, i);
      var list := notes[i := Edited(notes[i], fields, now)];
      var note := list[i];
      list := list[..i] + list[i + 1..];
      list := [note] + list;
      assert list == MoveToFront(notes, i, note);
      notes := list;
    }

    /** `autoSave()` at time `now`. */
    method AutoSave(now: string)
      modifies this`notes, this`versions, this`aliasField
      ensures AutoSaveState(notes, versions, aliasField) ==
        old(AutoSaveStep(notes, versions, currentNoteId, autoSaveEnabled, Fields(titleField, aliasField, editorText), now))
    {
      var fields := Fields(titleField, aliasField, editorText);
      ghost var step := AutoSaveStep(notes, versions, currentNoteId, autoSaveEnabled, fields, now);
      if currentNoteId.None? || currentNoteId.value == "" || !autoSaveEnabled {
        AutoSaveSkips(notes, versions, currentNoteId, autoSaveEnabled, fields, now);
        return;
      }
      var id := currentNoteId.value;
      var noteIndex := FindIndex(notes, id);
      if noteIndex.None? {
        AutoSaveSkips(notes, versions, currentNoteId, autoSaveEnabled, fields, now);
        return;
      }
      var i := noteIndex.value;
      var note := notes[i];
      var alias := NormalizeAlias(aliasField);
      if alias != "" && AliasTaken(notes, alias, id) {
        AutoSaveConflicts(notes, versions, id, fields, now, i);
        aliasField := note.alias;
        return;
      }
      AutoSaveWrites(notes, versions, id, fields, now, i);
      var edited := notes[i := Edited(note, fields, now)];
      assert step == AutoSaveState(edited, step.versions, fields.alias);
      if ShouldRecordVersion(fields.content, note.content) {
        SaveVersion(id, note.content, now);
        assert aliasField == fields.alias;
      }
      assert versions == step.versions;
      notes := edited;
      assert AutoSaveState(notes, versions, aliasField) == step;
    }

    /** `saveVersion(noteId, content)`: skip a duplicate of the newest entry, otherwise
        prepend and cap every list. */
    method SaveVersion(noteId: string, content: string, now: string)
      modifies this`versions
      ensures versions == SaveVersionResult(old(versions), noteId, content, now)
    {
      if noteId !in versions {
        versions := versions[noteId := []];
      }
      if |versions[noteId]| > 0 && versions[noteId][0].content == content {
        return;
      }
      versions := versions[noteId := [MakeVersion(content, now)] + versions[noteId]];
      CapVersions();
    }

    /** The loop of `saveVersions` over every note id. */
    method CapVersions()
      modifies this`versions
      ensures versions == CapAll(old(versions))
    {
      var pending := versions.Keys;
      while pending != {}
        invariant pending <= versions.Keys && versions.Keys == old(versions).Keys
        invariant forall k :: k in versions ==> versions[k] == if k in pending then old(versions)[k] else Cap(old(versions)[k])
        decreases pending
      {
        var noteId :| noteId in pending;
        if |versions[noteId]| > MAX_VERSIONS_PER_NOTE {
          versions := versions[noteId := versions[noteId][..MAX_VERSIONS_PER_NOTE]];
        }
        pending := pending - {noteId};
      }
    }

    /** `deleteCurrentNote()`; `confirmed` is the answer to `confirm`, `freshId` the id a
        replacement note would get. */
    method DeleteCurrentNote(confirmed: bool, freshId: string, now: string)
      requires Valid()
      modifies this`notes, this`currentNoteId, this`titleField, this`aliasField, this`editorText, this`selStart, this`selEnd
      ensures notes == DeleteResult(old(notes), old(currentNoteId), confirmed, freshId, now)
      ensures DeleteApplies(old(notes), old(currentNoteId), confirmed) ==> |notes| > 0 && currentNoteId == Some(notes[0].id)
      ensures DeleteApplies(old(notes), old(currentNoteId), confirmed) ==>
        titleField == notes[0].title && aliasField == notes[0].alias && editorText == notes[0].content
      ensures if editorText == old(editorText) then selStart == old(selStart) && selEnd == old(selEnd)
        else selStart == selEnd == |editorText|
      ensures !DeleteApplies(old(notes), old(currentNoteId), confirmed) ==> unchanged(this)
      ensures Valid()
    {
      if currentNoteId.None? || currentNoteId.value == "" || !confirmed {
        return;
      }
      var noteIndex := FindIndex(notes, currentNoteId.value);
      if noteIndex.None? {
        return;
      }
      notes := RemoveAt(notes, noteIndex.value);
      if |notes| > 0 {
        LoadNote(notes[0].id);
      } else {
        CreateNewNote(freshId, now);
      }
    }

    /** `handleJsonImport` with the parsed file (`None` when it is not valid JSON or not an
        array) and one generated id per element. Returns the number imported, or `None`
        where the `catch` shows the error toast: an unreadable file changes nothing, while
        a `null` element throws after the notes before it are already unshifted, so they
        stay in the list, unsaved, and no note is loaded. */
    method ImportJson(imported: Option<seq<ImportedNote>>, ids: seq<string>, now: string) returns (result: Option<nat>)
      requires Valid()
      requires imported.Some? ==> |ids| == |imported.value|
      modifies this`notes, this`currentNoteId, this`titleField, this`aliasField, this`editorText, this`selStart, this`selEnd
      ensures imported.None? ==> result.None? && unchanged(this)
      ensures imported.Some? ==> var k := FirstNull(imported.value);
        notes == ImportedNotes(imported.value[..k], ids[..k], now) + old(notes) &&
        (result.Some? <==> k == |imported.value|)
      ensures result.Some? ==> result.value == AcceptedCount(imported.value)
      ensures result.None? || |notes| == 0 ==> unchanged(this`currentNoteId, this`titleField, this`aliasField, this`editorText, this`selStart, this`selEnd)
      ensures result.Some? && |notes| > 0 ==>
        currentNoteId == Some(notes[0].id) && titleField == notes[0].title &&
        aliasField == notes[0].alias && editorText == notes[0].content
      ensures if editorText == old(editorText) then selStart == old(selStart) && selEnd == old(selEnd)
        else selStart == selEnd == |editorText|
      ensures Valid()
    {
      if imported.None? {
        return None;
      }
      var entries := imported.value;
      var k, count := UnshiftImported(entries, ids, now);
      if k < |entries| {
        return None;
      }
      assert entries[..k] == entries && ids[..k] == ids;
      if |notes| > 0 {
        LoadNote(notes[0].id);
      }
      result := Some(count);
    }

    /** The `forEach` of `handleJsonImport`: unshifts the note of each accepted element in
        turn and stops at the first `null` element, at position `k`, where it throws. */
    method UnshiftImported(entries: seq<ImportedNote>, ids: seq<string>, now: string) returns (k: nat, count: nat)
      requires |ids| == |entries|
      modifies this`notes
      ensures k == FirstNull(entries)
      ensures notes == ImportedNotes(entries[..k], ids[..k], now) + old(notes)
      ensures count == AcceptedCount(entries[..k])
    {
      count := 0;
      k := 0;
      while k < |entries|
        invariant k <= FirstNull(entries)
        invariant notes == ImportedNotes(entries[..k], ids[..k], now) + old(notes)
        invariant count == AcceptedCount(entries[..k])
      {
        var note := entries[k];
        if note.NullElement? {
          assert FirstNull(entries) == k;
          return;
        }
        ImportStep(entries, ids, now, k);
        if Accepted(note) {
          notes := [ImportedAsNote(note, ids[k], now)] + notes;
          count := count + 1;
        }
        k := k + 1;
      }
      assert FirstNull(entries) == k;
    }

    /** `toggleAutoSave()` with the state of the checkbox. */
    method SetAutoSave(checked: bool)
      modifies this`autoSaveEnabled
      ensures autoSaveEnabled == checked
    {
      autoSaveEnabled := checked;
    }

    /** `insertFormat(before, after)` on the editor text and selection. */
    method InsertFormat(before: string, after: string)
      requires Valid()
      modifies this`editorText, this`selStart, this`selEnd
      ensures var r := Editing.InsertFormatted(old(editorText), old(selStart), old(selEnd), before, after);
        editorText == r.text && selStart == r.cursor && selEnd == r.cursor
      ensures Valid()
    {
      var r := Editing.InsertFormatted(editorText, selStart, selEnd, before, after);
      editorText := r.text;
      selStart, selEnd := r.cursor, r.cursor;
    }

    /** `toggleView()`. */
    method ToggleView()
      modifies this`viewMode
      ensures viewMode == Editing.NextViewMode(old(viewMode))
    {
      viewMode := Editing.NextViewMode(viewMode);
    }
  }
}
