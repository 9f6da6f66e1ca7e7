/** The earlier editor, app.js: the same note store as public/app.js without settings,
    version history or sharing. Its `autoSave` always runs and records no version; the
    other handlers behave as in the later editor, and each is proved against the same
    specification functions. */
module LegacyApp {
  import opened Wrappers
  import opened Notes
  import NoteApp
  import Editing
  import Versions

  class LegacyEditor {
    var notes: seq<Note>
    var currentNoteId: Option<string>
    var titleField: string
    var aliasField: string
    var editorText: string
    var selStart: nat
    var selEnd: nat
    var viewMode: string

    /** The editor selection lies inside the text. */
    predicate Valid()
      reads this
    {
      selStart <= selEnd <= |editorText|
    }

    /** The state before `loadNotes`. */
    constructor()
      ensures Valid() && notes == [] && currentNoteId == None && viewMode == Editing.SPLIT
    {
      notes := [];
      currentNoteId := None;
      titleField, aliasField, editorText := "", "", "";
      selStart, selEnd := 0, 0;
      viewMode := Editing.SPLIT;
    }

    /** `loadNote(noteId)`: the note's fields go into the inputs. Writing a different
        editor value puts the caret at its end; writing the value the editor already
        holds leaves the selection where it was. */
    method LoadNote(noteId: string)
      modifies this`currentNoteId, this`titleField, this`aliasField, this`editorText, this`selStart, this`selEnd
      ensures match FindIndex(notes, noteId)
        case None => unchanged(this)
        case Some(i) =>
          currentNoteId == Some(noteId) && titleField == notes[i].title &&
          aliasField == notes[i].alias && editorText == notes[i].content &&
          if editorText == old(editorText) then selStart == old(selStart) && selEnd == old(selEnd)
          else selStart == selEnd == |editorText|
      ensures old(Valid()) ==> Valid()
    {
      var i := FindIndex(notes, noteId);
      if i.None? {
        return;
      }
      var note := notes[i.value];
      currentNoteId := Some(noteId);
      titleField := note.title;
      aliasField := note.alias;
      if editorText != note.content {
        editorText := note.content;
        selStart, selEnd := |editorText|, |editorText|;
      }
    }

    /** `createNewNote()` with the generated id `id` at time `now`. */
    method CreateNewNote(id: string, now: string)
      requires Valid()
      modifies this`notes, this`currentNoteId, this`titleField, this`aliasField, this`editorText, this`selStart, this`selEnd
      ensures notes == [NewNote(id, now)] + old(notes)
      ensures currentNoteId == Some(id)
      ensures titleField == UNTITLED && aliasField == "" && editorText == ""
      ensures Valid()
    {
      notes := [NewNote(id, now)] + notes;
      LoadNote(id);
    }

    /** `saveNote()` at time `now`. */
    method SaveNote(now: string)
      modifies this`notes
      ensures notes == old(SaveResult(notes, currentNoteId, Fields(titleField, aliasField, editorText), now))
    {
      if currentNoteId.None? || currentNoteId.value == "" {
        return;
      }
      var noteIndex := FindIndex(notes, currentNoteId.value);
      if noteIndex.None? {
        return;
      }
      var i := noteIndex.value;
      var fields := Fields(titleField, aliasField, editorText);
      var alias := NormalizeAlias(aliasField);
      if alias != "" && AliasTaken(notes, alias, currentNoteId.value) {
        return;
      }
      NoteApp.SaveWrites(notes, currentNoteId.value, fields, now, i);
      var list := notes[i := Edited(notes[i], fields, now)];
      var note := list[i];
      list := list[..i] + list[i + 1..];
      list := [note] + list;
      assert list == MoveToFront(notes, i, note);
      notes := list;
    }

    /** `autoSave()` at time `now`: the later editor's auto-save, always switched on and
        without the version history. */
    method AutoSave(now: string)
      modifies this`notes, this`aliasField
      ensures var step := old(NoteApp.AutoSaveStep(notes, map[], currentNoteId, true, Fields(titleField, aliasField, editorText), now));
        notes == step.notes && aliasField == step.aliasField
    {
      if currentNoteId.None? || currentNoteId.value == "" {
        NoteApp.AutoSaveSkips(notes, map[], currentNoteId, true, Fields(titleField, aliasField, editorText), now);
        return;
      }
      var noteIndex := FindIndex(notes, currentNoteId.value);
      if noteIndex.None? {
        NoteApp.AutoSaveSkips(notes, map[], currentNoteId, true, Fields(titleField, aliasField, editorText), now);
        return;
      }
      var i := noteIndex.value;
      var fields := Fields(titleField, aliasField, editorText);
      var alias := NormalizeAlias(aliasField);
      if alias != "" && AliasTaken(notes, alias, currentNoteId.value) {
        NoteApp.AutoSaveConflicts(notes, map[], currentNoteId.value, fields, now, i);
        aliasField := notes[i].alias;
        return;
      }
      NoteApp.AutoSaveWrites(notes, map[], currentNoteId.value, fields, now, i);
      notes := notes[i := Edited(notes[i], fields, now)];
    }

    /** `deleteCurrentNote()`; `confirmed` is the answer to `confirm`, `freshId` the id a
        replacement note would get. */
    method DeleteCurrentNote(confirmed: bool, freshId: string, now: string)
      requires Valid()
      modifies this`notes, this`currentNoteId, this`titleField, this`aliasField, this`editorText, this`selStart, this`selEnd
      ensures notes == NoteApp.DeleteResult(old(notes), old(currentNoteId), confirmed, freshId, now)
      ensures NoteApp.DeleteApplies(old(notes), old(currentNoteId), confirmed) ==> |notes| > 0 && currentNoteId == Some(notes[0].id)
      ensures NoteApp.DeleteApplies(old(notes), old(currentNoteId), confirmed) ==>
        titleField == notes[0].title && aliasField == notes[0].alias && editorText == notes[0].content
      ensures if editorText == old(editorText) then selStart == old(selStart) && selEnd == old(selEnd)
        else selStart == selEnd == |editorText|
      ensures !NoteApp.DeleteApplies(old(notes), old(currentNoteId), confirmed) ==> unchanged(this)
      ensures Valid()
    {
      if currentNoteId.None? || currentNoteId.value == "" || !confirmed {
        return;
      }
      var noteIndex := FindIndex(notes, currentNoteId.value);
      if noteIndex.None? {
        return;
      }
      notes := RemoveAt(notes, noteIndex.value);
      if |notes| > 0 {
        LoadNote(notes[0].id);
      } else {
        CreateNewNote(freshId, now);
      }
    }

    /** `insertFormat(before, after)` on the editor text and selection. */
    method InsertFormat(before: string, after: string)
      requires Valid()
      modifies this`editorText, this`selStart, this`selEnd
      ensures var r := Editing.InsertFormatted(old(editorText), old(selStart), old(selEnd), before, after);
        editorText == r.text && selStart == r.cursor && selEnd == r.cursor
      ensures Valid()
    {
      var r := Editing.InsertFormatted(editorText, selStart, selEnd, before, after);
      editorText := r.text;
      selStart, selEnd := r.cursor, r.cursor;
    }

    /** `toggleView()`. */
    method ToggleView()
      modifies this`viewMode
      ensures viewMode == Editing.NextViewMode(old(viewMode))
    {
      viewMode := Editing.NextViewMode(viewMode);
    }
  }

  /** The earlier auto-save writes the same notes as the later one switched on, and as
      the in-place store operation. */
  lemma LegacyAutoSaveAgrees(notes: seq<Note>, versions: map<string, seq<Versions.Version>>, current: Option<string>, f: Fields, now: string)
    ensures NoteApp.AutoSaveStep(notes, map[], current, true, f, now).notes == AutoSaveResult(notes, current, f, now)
    ensures NoteApp.AutoSaveStep(notes, map[], current, true, f, now).notes == NoteApp.AutoSaveStep(notes, versions, current, true, f, now).notes
    ensures NoteApp.AutoSaveStep(notes, map[], current, true, f, now).aliasField == NoteApp.AutoSaveStep(notes, versions, current, true, f, now).aliasField
  {
    NoteApp.AutoSaveStepNotes(notes, map[], current, true, f, now);
  }
}
