/** The note store shared by both editors (public/app.js and the earlier app.js): the note
    record, alias normalisation, the write-time alias check, and the list transformations
    that `saveNote` (edit, then move to the front), `autoSave` (edit in place) and
    `deleteCurrentNote` (remove) apply to the `notes` array. */
module Notes {
  import opened Wrappers
  import opened Text

  /** One stored note; `createdAt`/`updatedAt` are ISO-8601 timestamps supplied by the caller. */
  datatype Note = Note(id: string, title: string, alias: string, content: string, createdAt: string, updatedAt: string)

  /** The editor's three input fields as a save reads them: title, alias, and the text. */
  datatype Fields = Fields(title: string, alias: string, content: string)

  const UNTITLED: string := "Untitled Note"

  /** The note `createNewNote` puts at the front of the list. */
  function NewNote(id: string, now: string): (n: Note)
    ensures n.id == id && n.title == UNTITLED && n.alias == "" && n.content == ""
    ensures n.createdAt == now && n.updatedAt == now
  {
    Note(id, UNTITLED, "", "", now, now)
  }

  /** A character that may appear in a client-side alias: `[a-z0-9-]`. */
  predicate IsAliasChar(c: char) { IsAsciiLower(c) || IsDigit(c) || c == '-' }

  predicate IsAlias(s: string) { forall i :: 0 <= i < |s| ==> IsAliasChar(s[i]) }

  /** `value.trim().toLowerCase().replace(/[^a-z0-9-]/g, '-')`. */
  function NormalizeAlias(input: string): (r: string)
    ensures IsAlias(r)
    ensures |Trim(input)| <= |r| <= 2 * |Trim(input)|
  {
    ToLowerUtf16Length(Trim(input));
    MaskAlias(ToLower(Trim(input)))
  }

  /** `.replace(/[^a-z0-9-]/g, '-')`: the pattern has no `u` flag, so it runs over UTF-16
      code units, and a character outside the Basic Multilingual Plane becomes `--`. */
  function MaskAlias(s: string): (r: string)
    ensures IsAlias(r) && |r| == Utf16Length(s)
    ensures AllBmp(s) ==> |r| == |s| && forall i :: 0 <= i < |s| ==> r[i] == if IsAliasChar(s[i]) then s[i] else '-'
  {
    var r := ReplaceOutside(s, IsAliasChar, '-');
    if AllBmp(s) then ReplaceOutsideBmp(s, IsAliasChar, '-'); r else r
  }

  /** Each astral character of the input turns into two `-`, whatever surrounds it. */
  lemma AstralBecomesTwoDashes(a: string, c: char, b: string)
    requires IsAstral(c)
    ensures MaskAlias(a + [c] + b) == MaskAlias(a) + "--" + MaskAlias(b)
  {
    ReplaceOutsideConcat(a + [c], b, IsAliasChar, '-');
    ReplaceOutsideConcat(a, [c], IsAliasChar, '-');
    assert ReplaceOutside([c], IsAliasChar, '-') == "--" by {
      assert [c][1..] == [];
    }
  }

  /** An alias that is already in normal form is left as it is. */
  lemma NormalizeAliasKeepsAliases(s: string)
    requires IsAlias(s)
    ensures NormalizeAlias(s) == s
  {
    AliasIsTrimmed(s);
    AliasIsLowerCase(s);
    AliasIsMasked(s);
  }

  lemma AliasIsTrimmed(s: string)
    requires IsAlias(s)
    ensures Trim(s) == s
  {
    assert forall i :: 0 <= i < |s| ==> !IsJsWhitespace(s[i]);
    TrimNoWhitespace(s);
  }

  lemma AliasIsLowerCase(s: string)
    requires IsAlias(s)
    ensures ToLower(s) == s
  {
    assert forall i :: 0 <= i < |s| ==> !IsAsciiUpper(s[i]) && s[i] != '\U{212A}' && s[i] != '\U{130}';
    ToLowerKeeps(s);
  }

  lemma AliasIsMasked(s: string)
    requires IsAlias(s)
    ensures MaskAlias(s) == s
  {
    ReplaceOutsideKeeps(s, IsAliasChar, '-');
  }

  /** Normalising twice is normalising once. */
  lemma NormalizeAliasIdempotent(input: string)
    ensures NormalizeAlias(NormalizeAlias(input)) == NormalizeAlias(input)
  {
    NormalizeAliasKeepsAliases(NormalizeAlias(input));
  }

  /** `value.trim() || 'Untitled Note'`. */
  function EditedTitle(input: string): (r: string)
    ensures r != []
    ensures Trim(input) != [] ==> r == Trim(input)
  {
    if Trim(input) != [] then Trim(input) else UNTITLED
  }

  /** `notes.findIndex(n => n.id === id)`: the first position holding `id`. */
  function FindIndex(notes: seq<Note>, id: string): (r: Option<nat>)
    ensures r.Some? ==> r.value < |notes| && notes[r.value].id == id
    ensures r.Some? ==> forall j :: 0 <= j < r.value ==> notes[j].id != id
    ensures r.None? ==> forall j :: 0 <= j < |notes| ==> notes[j].id != id
  {
    if notes == [] then None
    else if notes[0].id == id then Some(0)
    else match FindIndex(notes[1..], id)
      case None => None
      case Some(i) => Some(i + 1)
  }

  /** The conflict test of `saveNote`/`autoSave`: a non-empty alias already held by a
      note with another id. */
  predicate AliasTaken(notes: seq<Note>, alias: string, currentId: string) {
    alias != "" && exists j :: 0 <= j < |notes| && notes[j].alias == alias && notes[j].id != currentId
  }

  /** `{ ...note, title, alias, content, updatedAt }`. */
  function Edited(n: Note, f: Fields, now: string): (r: Note)
    ensures r.id == n.id && r.createdAt == n.createdAt
    ensures r.title != "" && IsAlias(r.alias) && r.content == f.content && r.updatedAt == now
  {
    n.(title := EditedTitle(f.title), alias := NormalizeAlias(f.alias), content := f.content, updatedAt := now)
  }

  /** `notes.splice(i, 1)`. */
  function RemoveAt(notes: seq<Note>, i: nat): (r: seq<Note>)
    requires i < |notes|
    ensures |r| == |notes| - 1
    ensures forall j :: 0 <= j < i ==> r[j] == notes[j]
    ensures forall j :: i <= j < |r| ==> r[j] == notes[j + 1]
  {
    notes[..i] + notes[i + 1..]
  }

  /** `notes[i] = n`, then `notes.splice(i, 1)` and `notes.unshift(...)`. */
  function MoveToFront(notes: seq<Note>, i: nat, n: Note): (r: seq<Note>)
    requires i < |notes|
    ensures |r| == |notes| && r[0] == n
    ensures forall j :: 0 <= j < i ==> r[j + 1] == notes[j]
    ensures forall j :: i < j < |notes| ==> r[j] == notes[j]
  {
    [n] + RemoveAt(notes, i)
  }

  /** What `saveNote` leaves in `notes`: nothing changes without a current note, when the
      current id is not in the list, or when the normalised alias is taken; otherwise the
      edited note moves to the front. */
  function SaveResult(notes: seq<Note>, current: Option<string>, f: Fields, now: string): (r: seq<Note>)
    ensures |r| == |notes|
    ensures r != notes ==>
      current.Some? && current.value != "" && FindIndex(notes, current.value).Some? &&
      !AliasTaken(notes, NormalizeAlias(f.alias), current.value) && r[0].id == current.value
  {
    if current.None? || current.value == "" then notes
    else match FindIndex(notes, current.value)
      case None => notes
      case Some(i) =>
        if AliasTaken(notes, NormalizeAlias(f.alias), current.value) then notes
        else MoveToFront(notes, i, Edited(notes[i], f, now))
  }

  /** What `autoSave` leaves in `notes` once it runs: the same refusals as `saveNote`, and
      otherwise the edited note stays where it is. */
  function AutoSaveResult(notes: seq<Note>, current: Option<string>, f: Fields, now: string): (r: seq<Note>)
    ensures |r| == |notes| && forall j :: 0 <= j < |r| ==> r[j].id == notes[j].id
    ensures r != notes ==>
      current.Some? && current.value != "" && FindIndex(notes, current.value).Some? &&
      !AliasTaken(notes, NormalizeAlias(f.alias), current.value)
  {
    if current.None? || current.value == "" then notes
    else match FindIndex(notes, current.value)
      case None => notes
      case Some(i) =>
        if AliasTaken(notes, NormalizeAlias(f.alias), current.value) then notes
        else notes[i := Edited(notes[i], f, now)]
  }

  /** The ids of the notes, in list order. */
  function Ids(notes: seq<Note>): (r: seq<string>)
    ensures |r| == |notes| && forall j :: 0 <= j < |notes| ==> r[j] == notes[j].id
  {
    seq(|notes|, j requires 0 <= j < |notes| => notes[j].id)
  }

  /** No two notes share an id. */
  predicate IdsUnique(notes: seq<Note>) {
    forall j, k :: 0 <= j < k < |notes| ==> notes[j].id != notes[k].id
  }

  /** No two notes share a non-empty alias: the property the write-time check protects. */
  predicate AliasesUnique(notes: seq<Note>) {
    forall j, k :: 0 <= j < k < |notes| && notes[j].alias != "" ==> notes[j].alias != notes[k].alias
  }

  /** A successful `saveNote` puts the edited note at index 0, keeps the count, and keeps
      every other note in its previous relative order. */
  lemma SaveMovesToFront(notes: seq<Note>, current: string, f: Fields, now: string)
    requires current != "" && FindIndex(notes, current).Some?
    requires !AliasTaken(notes, NormalizeAlias(f.alias), current)
    ensures var i := FindIndex(notes, current).value;
      var r := SaveResult(notes, Some(current), f, now);
      |r| == |notes| &&
      r[0] == Edited(notes[i], f, now) && r[0].id == current &&
      r[1..] == RemoveAt(notes, i) &&
      multiset(Ids(r)) == multiset(Ids(notes))
  {
    var i := FindIndex(notes, current).value;
    var n := Edited(notes[i], f, now);
    assert SaveResult(notes, Some(current), f, now) == MoveToFront(notes, i, n);
    MoveToFrontKeepsIds(notes, i, n);
  }

  /** Moving a note with the same id to the front permutes the ids. */
  lemma MoveToFrontKeepsIds(notes: seq<Note>, i: nat, n: Note)
    requires i < |notes| && n.id == notes[i].id
    ensures multiset(Ids(MoveToFront(notes, i, n))) == multiset(Ids(notes))
  {
    IdsConcat(notes[..i], notes[i..]);
    assert notes == notes[..i] + notes[i..];
    IdsConcat([notes[i]], notes[i + 1..]);
    assert notes[i..] == [notes[i]] + notes[i + 1..];
    IdsConcat(notes[..i], notes[i + 1..]);
    IdsConcat([n], RemoveAt(notes, i));
    assert Ids([n]) == Ids([notes[i]]);
  }

  lemma IdsConcat(a: seq<Note>, b: seq<Note>)
    ensures Ids(a + b) == Ids(a) + Ids(b)
  {
  }

  /** A successful `autoSave` rewrites the note in place and touches no other position. */
  lemma AutoSaveInPlace(notes: seq<Note>, current: string, f: Fields, now: string)
    requires current != "" && FindIndex(notes, current).Some?
    requires !AliasTaken(notes, NormalizeAlias(f.alias), current)
    ensures var i := FindIndex(notes, current).value;
      var r := AutoSaveResult(notes, Some(current), f, now);
      |r| == |notes| && r[i] == Edited(notes[i], f, now) &&
      (forall j :: 0 <= j < |notes| && j != i ==> r[j] == notes[j]) &&
      Ids(r) == Ids(notes)
  {
  }

  /** Either save refuses to write when another note holds the normalised alias. */
  lemma TakenAliasChangesNothing(notes: seq<Note>, current: string, f: Fields, now: string)
    requires AliasTaken(notes, NormalizeAlias(f.alias), current)
    ensures SaveResult(notes, Some(current), f, now) == notes
    ensures AutoSaveResult(notes, Some(current), f, now) == notes
  {
  }

  /** With distinct ids, the write-time check keeps aliases distinct through `saveNote`. */
  lemma SaveKeepsAliasesUnique(notes: seq<Note>, current: Option<string>, f: Fields, now: string)
    requires IdsUnique(notes) && AliasesUnique(notes)
    ensures IdsUnique(SaveResult(notes, current, f, now))
    ensures AliasesUnique(SaveResult(notes, current, f, now))
  {
    if current.Some? && current.value != "" && FindIndex(notes, current.value).Some? &&
       !AliasTaken(notes, NormalizeAlias(f.alias), current.value) {
      var i := FindIndex(notes, current.value).value;
      var n := Edited(notes[i], f, now);
      assert SaveResult(notes, current, f, now) == MoveToFront(notes, i, n);
      forall j | 0 <= j < |notes| && j != i
        ensures n.alias != "" ==> notes[j].alias != n.alias
      {
        assert notes[j].id != current.value;
      }
      MoveToFrontKeepsUnique(notes, i, n);
    }
  }

  /** Putting a note with the same id and an alias no other note holds at the front
      keeps ids and aliases distinct. */
  lemma MoveToFrontKeepsUnique(notes: seq<Note>, i: nat, n: Note)
    requires i < |notes| && IdsUnique(notes) && AliasesUnique(notes) && n.id == notes[i].id
    requires n.alias != "" ==> forall j :: 0 <= j < |notes| && j != i ==> notes[j].alias != n.alias
    ensures IdsUnique(MoveToFront(notes, i, n)) && AliasesUnique(MoveToFront(notes, i, n))
  {
    var r := MoveToFront(notes, i, n);
    // every position of r past the front is a position of notes other than i
    forall j, k | 0 <= j < k < |r|
      ensures r[j].id != r[k].id
      ensures r[j].alias != "" ==> r[j].alias != r[k].alias
    {
      var k' := MovedFrom(notes, i, n, k);
      if j > 0 {
        var j' := MovedFrom(notes, i, n, j);
      }
    }
  }

  /** Where position `k > 0` of the moved list comes from. */
  lemma MovedFrom(notes: seq<Note>, i: nat, n: Note, k: nat) returns (k': nat)
    requires i < |notes| && 0 < k < |notes|
    ensures k' == (if k - 1 < i then k - 1 else k) && k' != i && k' < |notes|
    ensures MoveToFront(notes, i, n)[k] == notes[k']
  {
    var r := MoveToFront(notes, i, n);
    if k - 1 < i {
      k' := k - 1;
      assert r[k' + 1] == notes[k'];
    } else {
      k' := k;
      assert r[k'] == notes[k'];
    }
  }

  /** With distinct ids, the write-time check keeps aliases distinct through `autoSave`. */
  lemma AutoSaveKeepsAliasesUnique(notes: seq<Note>, current: Option<string>, f: Fields, now: string)
    requires IdsUnique(notes) && AliasesUnique(notes)
    ensures IdsUnique(AutoSaveResult(notes, current, f, now))
    ensures AliasesUnique(AutoSaveResult(notes, current, f, now))
  {
    if current.Some? && current.value != "" && FindIndex(notes, current.value).Some? &&
       !AliasTaken(notes, NormalizeAlias(f.alias), current.value) {
      var i := FindIndex(notes, current.value).value;
      var r := AutoSaveResult(notes, current, f, now);
      forall j, k | 0 <= j < k < |r|
        ensures r[j].alias != "" ==> r[j].alias != r[k].alias
      {
        if j == i || k == i {
          var other := if j == i then k else j;
          assert notes[other].id != current.value;
        }
      }
    }
  }

  /** A note with a fresh id and an empty alias, put in front, keeps both properties. */
  lemma NewNoteKeepsUnique(notes: seq<Note>, id: string, now: string)
    requires IdsUnique(notes) && AliasesUnique(notes)
    requires forall j :: 0 <= j < |notes| ==> notes[j].id != id
    ensures IdsUnique([NewNote(id, now)] + notes) && AliasesUnique([NewNote(id, now)] + notes)
  {
  }

  /** Removing a note keeps both properties. */
  lemma RemoveKeepsUnique(notes: seq<Note>, i: nat)
    requires i < |notes| && IdsUnique(notes) && AliasesUnique(notes)
    ensures IdsUnique(RemoveAt(notes, i)) && AliasesUnique(RemoveAt(notes, i))
  {
    var r := RemoveAt(notes, i);
    forall j, k | 0 <= j < k < |r|
      ensures r[j].id != r[k].id
      ensures r[j].alias != "" ==> r[j].alias != r[k].alias
    {
      var j' := if j < i then j else j + 1;
      var k' := if k < i then k else k + 1;
      assert r[j] == notes[j'] && r[k] == notes[k'] && j' < k';
    }
  }
}
