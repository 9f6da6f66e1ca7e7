/** Version history of public/app.js: for every note id a list of earlier contents,
    newest first. `saveVersion` skips a content equal to the newest entry and otherwise
    prepends one; `saveVersions` then cuts every list to its first ten entries. `autoSave`
    records a version only for a large change of length. */
module Versions {
  import opened Text

  /** `{ timestamp, content, preview: content.substring(0, 100) }` */
  datatype Version = Version(timestamp: string, content: string, preview: string)

  const MAX_VERSIONS_PER_NOTE: nat := 10
  const PREVIEW_LENGTH: nat := 100

  /** The entry `saveVersion` prepends. */
  function MakeVersion(content: string, now: string): (v: Version)
    ensures v.content == content && |v.preview| <= PREVIEW_LENGTH && |v.preview| <= |content| && v.preview == content[..|v.preview|]
  {
    Version(now, content, Take(content, PREVIEW_LENGTH))
  }

  /** `list.slice(0, 10)` when the list is longer than ten. */
  function Cap(list: seq<Version>): (r: seq<Version>)
    ensures |r| <= MAX_VERSIONS_PER_NOTE && |r| <= |list| && r == list[..|r|]
    ensures |list| <= MAX_VERSIONS_PER_NOTE ==> r == list
  {
    if |list| > MAX_VERSIONS_PER_NOTE then list[..MAX_VERSIONS_PER_NOTE] else list
  }

  /** Every list capped, every key kept: what the loop of `saveVersions` leaves. */
  function CapAll(m: map<string, seq<Version>>): (r: map<string, seq<Version>>)
    ensures r.Keys == m.Keys
    ensures forall k :: k in r ==> r[k] == Cap(m[k])
  {
    map k | k in m :: Cap(m[k])
  }

  /** Every list holds at most ten versions. */
  predicate AllCapped(m: map<string, seq<Version>>) {
    forall k :: k in m ==> |m[k]| <= MAX_VERSIONS_PER_NOTE
  }

  /** What `saveVersion(noteId, content)` leaves: unchanged when the newest stored version
      already has this content, otherwise the new entry in front and every list capped. */
  function SaveVersionResult(m: map<string, seq<Version>>, noteId: string, content: string, now: string): (r: map<string, seq<Version>>)
    ensures r.Keys == m.Keys + {noteId}
    ensures |r[noteId]| > 0 && r[noteId][0].content == content
  {
    var list := if noteId in m then m[noteId] else [];
    if |list| > 0 && list[0].content == content then m
    else CapAll(m[noteId := [MakeVersion(content, now)] + list])
  }

  /** After `saveVersion` the newest version of the note holds the content just saved, and
      the list is never longer than the cap allows. */
  lemma SaveVersionNewestFirst(m: map<string, seq<Version>>, noteId: string, content: string, now: string)
    requires AllCapped(m)
    ensures var r := SaveVersionResult(m, noteId, content, now);
      noteId in r && |r[noteId]| > 0 && r[noteId][0].content == content && AllCapped(r)
  {
  }

  /** A content equal to the newest version is not stored again. */
  lemma SaveVersionDeduplicates(m: map<string, seq<Version>>, noteId: string, content: string, now: string)
    requires noteId in m && |m[noteId]| > 0 && m[noteId][0].content == content
    ensures SaveVersionResult(m, noteId, content, now) == m
  {
  }

  /** Otherwise the new version goes in front of the old ones, and the older versions that
      fit under the cap keep their order; every other note's list is only capped. */
  lemma SaveVersionPrepends(m: map<string, seq<Version>>, noteId: string, content: string, now: string)
    requires !(noteId in m && |m[noteId]| > 0 && m[noteId][0].content == content)
    ensures var r := SaveVersionResult(m, noteId, content, now);
      var old_ := if noteId in m then m[noteId] else [];
      r.Keys == m.Keys + {noteId} &&
      r[noteId][0] == MakeVersion(content, now) &&
      r[noteId][1..] == old_[..|r[noteId]| - 1] &&
      |r[noteId]| == if |old_| < MAX_VERSIONS_PER_NOTE then |old_| + 1 else MAX_VERSIONS_PER_NOTE
    ensures var r := SaveVersionResult(m, noteId, content, now);
      forall k :: k in m && k != noteId ==> r[k] == Cap(m[k])
  {
  }

  /** Capping twice is capping once. */
  lemma CapAllIdempotent(m: map<string, seq<Version>>)
    ensures CapAll(CapAll(m)) == CapAll(m)
  {
    assert forall k :: k in m ==> Cap(Cap(m[k])) == Cap(m[k]);
  }

  /** `autoSave` records the previous content only when both contents are non-empty and
      their lengths differ by more than fifty characters. */
  predicate ShouldRecordVersion(content: string, oldContent: string)
    ensures ShouldRecordVersion(content, oldContent) ==> content != oldContent
  {
    var n, o := Utf16Length(content), Utf16Length(oldContent);
    content != "" && oldContent != "" && n != o && (if n > o then n - o else o - n) > 50
  }
}
