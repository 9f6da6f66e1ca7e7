/** The local mirror of shared links in public/app.js (`sharedNotesData`): a map from
    note id to what was shared, a secondary map from trimmed alias to the share token,
    and the time of the last write. `loadSharedNotes` merges the server's exported
    manifest under the local entries; `addToSharedNotes` and `removeFromSharedNotes`
    upsert and delete one key. The localStorage copy and the `fetch` of the manifest are
    outside the model: the fetched map is a parameter. */
module Mirror {
  import opened Wrappers
  import opened Text
  import Notes

  /** One entry of `sharedNotesData.notes`. */
  datatype SharedEntry = SharedEntry(
    id: string, title: string, alias: string, shareUrl: string, data: string,
    sharedAt: string, updatedAt: string)

  /** `{ ...fetched, ...local }`: every key of either map, the local entry on a collision. */
  function Merge(fetched: map<string, SharedEntry>, local: map<string, SharedEntry>): (r: map<string, SharedEntry>)
    ensures r.Keys == fetched.Keys + local.Keys
    ensures forall k :: k in local ==> r[k] == local[k]
    ensures forall k :: k in fetched && k !in local ==> r[k] == fetched[k]
  {
    fetched + local
  }

  /** Merging the same manifest again changes nothing. */
  lemma MergeIdempotent(fetched: map<string, SharedEntry>, local: map<string, SharedEntry>)
    ensures Merge(fetched, Merge(fetched, local)) == Merge(fetched, local)
  {
  }

  /** The entry `addToSharedNotes` stores for a note. */
  function EntryFor(note: Notes.Note, shareUrl: string, data: string, now: string): (e: SharedEntry)
    ensures e.id == note.id && e.data == data && e.shareUrl == shareUrl
  {
    SharedEntry(note.id, note.title, note.alias, shareUrl, data, now, note.updatedAt)
  }

  /** The members a plain object inherits from `Object.prototype`; reading one of these
      keys that the object does not hold itself yields a function (or, for `__proto__`,
      the prototype), which is truthy. */
  const INHERITED_KEYS: set<string> := {"constructor", "hasOwnProperty", "isPrototypeOf", "propertyIsEnumerable",
    "toLocaleString", "toString", "valueOf", "__proto__", "__defineGetter__", "__defineSetter__",
    "__lookupGetter__", "__lookupSetter__"}

  /** What reading a key of `sharedNotesData.notes` yields when it is not `undefined`. */
  datatype Property = Own(entry: SharedEntry) | Inherited(name: string)

  /** `notes[key]`: the object's own entry, else the inherited member, else `undefined`. */
  function Read(notes: map<string, SharedEntry>, key: string): (r: Option<Property>)
    ensures r.None? <==> key !in notes && key !in INHERITED_KEYS
    ensures key in notes ==> r == Some(Own(notes[key]))
  {
    if key in notes then Some(Own(notes[key]))
    else if key in INHERITED_KEYS then Some(Inherited(key))
    else None
  }

  /** `notes[alias] || notes[noteId]`. */
  function Lookup(notes: map<string, SharedEntry>, noteId: string, alias: string): (r: Option<Property>)
    ensures r.Some? ==> r == Read(notes, alias) || r == Read(notes, noteId)
    ensures alias in notes ==> r == Some(Own(notes[alias]))
    ensures r.None? <==> alias !in notes && alias !in INHERITED_KEYS && noteId !in notes && noteId !in INHERITED_KEYS
  {
    match Read(notes, alias)
    case Some(p) => Some(p)
    case None => Read(notes, noteId)
  }

  /** Ids made by `generateId` start with `note_`; a normalised alias has no `_`, so the
      alias half of `isNoteShared` can only hit through an inherited member, and the only
      such member a normalised alias can name is `constructor`. */
  lemma LookupIsById(notes: map<string, SharedEntry>, noteId: string, alias: string)
    requires forall k :: k in notes ==> exists i :: 0 <= i < |k| && k[i] == '_'
    requires Notes.IsAlias(alias)
    ensures Lookup(notes, noteId, alias) ==
      if alias == "constructor" then Some(Inherited("constructor")) else Read(notes, noteId)
  {
    assert forall i :: 0 <= i < |alias| ==> alias[i] != '_';
    OnlyConstructorIsAlias(alias);
  }

  /** Of the inherited members only `constructor` is spelled like a normalised alias: each
      other name has an upper-case letter or `_`. */
  lemma OnlyConstructorIsAlias(k: string)
    ensures k in INHERITED_KEYS && Notes.IsAlias(k) ==> k == "constructor"
  {
    if k in INHERITED_KEYS && k != "constructor" {
      var i := if k == "hasOwnProperty" || k == "valueOf" then (if k == "valueOf" then 5 else 3)
        else if k == "isPrototypeOf" || k == "toLocaleString" || k == "toString" then 2
        else if k == "propertyIsEnumerable" then 10
        else 0;
      assert i < |k| && !Notes.IsAliasChar(k[i]);
    }
  }

  /** Whatever the mirror holds, `isNoteShared(noteId, "constructor")` is truthy. */
  lemma ConstructorAliasIsShared(notes: map<string, SharedEntry>, noteId: string)
    ensures Lookup(notes, noteId, "constructor").Some?
  {
  }

  class SharedMirror {
    var notes: map<string, SharedEntry>
    var aliases: map<string, string>
    var lastUpdated: string

    /** The initial `sharedNotesData`. */
    constructor(now: string)
      ensures notes == map[] && aliases == map[] && lastUpdated == now
    {
      notes := map[];
      aliases := map[];
      lastUpdated := now;
    }

    /** The `.then` of `loadSharedNotes` with the manifest's `notes` (`None` when the
        manifest has none or could not be fetched), then `saveSharedNotes`. */
    method MergeManifest(fetched: Option<map<string, SharedEntry>>, now: string)
      modifies this
      ensures fetched.Some? ==> notes == Merge(fetched.value, old(notes)) && lastUpdated == now
      ensures fetched.None? ==> notes == old(notes) && lastUpdated == old(lastUpdated)
      ensures aliases == old(aliases)
    {
      if fetched.Some? {
        notes := Merge(fetched.value, notes);
        lastUpdated := now;
      }
    }

    /** `addToSharedNotes(note, shareUrl, compressedData)`: upsert under the note id,
        and record the token under the trimmed alias when the alias is not blank. */
    method AddToSharedNotes(note: Notes.Note, shareUrl: string, data: string, now: string) returns (shareId: string)
      modifies this
      ensures shareId == note.id
      ensures notes == old(notes)[note.id := EntryFor(note, shareUrl, data, now)]
      ensures Trim(note.alias) != "" ==> aliases == old(aliases)[Trim(note.alias) := data]
      ensures Trim(note.alias) == "" ==> aliases == old(aliases)
      ensures lastUpdated == now
    {
      shareId := note.id;
      notes := notes[shareId := EntryFor(note, shareUrl, data, now)];
      if note.alias != "" && Trim(note.alias) != "" {
        aliases := aliases[Trim(note.alias) := data];
      }
      lastUpdated := now;
    }

    /** `removeFromSharedNotes(shareId)`: exactly that key goes; the alias map keeps its
        entry. */
    method RemoveFromSharedNotes(shareId: string, now: string)
      modifies this
      ensures notes == old(notes) - {shareId}
      ensures aliases == old(aliases)
      ensures lastUpdated == now
    {
      notes := notes - {shareId};
      lastUpdated := now;
    }

    /** `getSharedNote(shareId)`. */
    function GetSharedNote(shareId: string): (r: Option<Property>)
      reads this
      ensures r.None? <==> shareId !in notes && shareId !in INHERITED_KEYS
      ensures shareId in notes ==> r == Some(Own(notes[shareId]))
    {
      Read(notes, shareId)
    }

    /** `isNoteShared(noteId, alias)`: an entry stored under the alias wins over one under
        the note id. */
    function IsNoteShared(noteId: string, alias: string): (r: Option<Property>)
      reads this
      ensures alias in notes ==> r == Some(Own(notes[alias]))
      ensures alias !in notes && alias !in INHERITED_KEYS ==> r == GetSharedNote(noteId)
    {
      Lookup(notes, noteId, alias)
    }
  }

  /** Sharing a note and then removing it leaves the notes map as it was before, when the
      note had not been shared. */
  lemma AddThenRemove(m: map<string, SharedEntry>, note: Notes.Note, shareUrl: string, data: string, now: string)
    requires note.id !in m
    ensures m[note.id := EntryFor(note, shareUrl, data, now)] - {note.id} == m
  {
  }
}
