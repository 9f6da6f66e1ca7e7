# Markdown Notes: the sharing pipeline and the note store, in Dafny

This project models the core of the Markdown Notes application (ToonTamilIndia/Markdown):
a browser editor that keeps notes in a list, shares them as self-contained links, and talks to
a Cloudflare worker that stores short aliases.

- **Share-token codec** (`codec.dfy`, on top of `utf8.dfy`, `base64.dfy`, `bytes.dfy`).
  `compressToURL` encodes text as UTF-8, DEFLATEs it when the pako library is loaded, and
  base64-encodes it (section 4 of RFC 4648). It then maps the result to the URL-safe alphabet
  of section 5 of RFC 4648, without padding. `decompressFromURL` reverses this: it tries the
  compressed reading first and then the plain one. UTF-8 (RFC 3629), `btoa` and the WHATWG
  forgiving-base64 decoder behind `atob` are modelled concretely. pako's `deflate`/`inflate`
  are a parameter pair (`Codec.Zlib`), with the single hypothesis that INFLATE inverts
  DEFLATE (`Codec.ZlibSound`).
- **Link builder** (`links.dfy`). `createShareableURL` builds
  `https://markdown.toontamilindia.in/view.html?d=<token>`. Above 15000 characters it falls
  back to a truncated payload. The module also covers `createAliasURL`, and
  `parseNoteFromURL` with its defaults. `JSON.stringify`/`JSON.parse` are a parameter pair
  (`Links.Json`) with a round-trip hypothesis (`Links.JsonSound`).
- **Note store** (`notes.dfy`). The note record, alias normalisation, the write-time alias
  check, and the list operations of save (move to front), auto-save (in place) and delete.
- **Version history** (`versions.dfy`). Newest first, de-duplicated against the head, capped
  at ten per note.
- **Local shared-link mirror** (`mirror.dfy`). `sharedNotesData` as a class with two maps, and
  the merge in which local entries win.
- **Editor helpers** (`editing.dfy`). `insertFormat`, `toggleView`, `sanitizeFilename`,
  `updateNoteStats` and the first-line title.
- **Editors as objects.** `note_app.dfy` holds the public/app.js editor as class
  `NoteApp.NoteEditor`. `legacy_app.dfy` holds the earlier app.js editor as class
  `LegacyApp.LegacyEditor`. Each handler is a method that changes the object's fields and is
  proved against the store's specification functions.
- **Worker** (`worker.dfy`). The alias-store API `handleAPI` and the `fetch` router, as class
  `Worker.AliasStore`. The KV namespace is a `map` field. Clock, namespace failures and the key
  list are inputs.

External inputs are parameters throughout:

- timestamps (`now`), generated ids, and the answer to `confirm`;
- the parsed import file, and the fetched `shared-notes.json` manifest;
- the result of a KV call that throws.

Where the code behaves in ways that are easy to misread, the model follows it:

- **View counts are not monotonic.** A new share under an existing alias stores `views: 0`
  (`Worker.ShareResetsViews`).
- **The truncated link is not re-checked** against the 15000-character ceiling. If the
  cut-down payload cannot be encoded, the link carries the literal text `null`
  (`Links.TruncatedLinkMayCarryNull`).
- **Client and server aliases differ.** The editor normalises aliases to `[a-z0-9-]`. The
  worker accepts `[a-zA-Z0-9_-]{2,50}`, so it takes aliases the editor never makes
  (`Worker.ClientAliasesPassServerCheck`).
- **`isNoteShared`'s alias lookup hits only `constructor`.** The mirror is keyed by note ids,
  which contain `_`, and a normalised alias never does. The mirror is a plain object, so a
  key it does not hold can still read a member inherited from `Object.prototype`. Among those
  members only `constructor` is spelled like a normalised alias. The lookup is therefore by id
  alone, except that `isNoteShared(id, "constructor")` is always truthy (`Mirror.LookupIsById`,
  `Mirror.ConstructorAliasIsShared`).
- **Regular expressions without the `u` flag work on UTF-16 code units.** A character outside
  the Basic Multilingual Plane is two code units. Alias masking turns it into `--`, and
  filename sanitising turns it into `__` (`Notes.AstralBecomesTwoDashes`,
  `Editing.AstralBecomesTwoUnderscores`). Lengths compared by the code (`content.length`) are
  counted in code units too (`Text.Utf16Length`).
- **The query ends where the fragment begins.** `window.location.search` is empty when the
  first `?` comes after a `#`, so `view.html#x?d=<token>` shows no shared note
  (`Links.FragmentHidesQuery`).
- **A `null` element aborts the JSON import half-way.** The notes before it are already in the
  list; they are not saved, no note is loaded, and the error toast is shown
  (`NoteApp.NoteEditor.ImportJson`).
- **The JSON import bypasses alias handling.** It neither normalises nor checks aliases.
- **The padding loop is a method.** `while (base64.length % 4) base64 += '='` is the method
  `Codec.RestoreBase64`, proved equal to the function `Codec.PadTo4` that the proofs use.

## Model

| member | source | states |
|---|---|---|
| Bytes.FromBytes | public/app.js:30 | `String.fromCharCode.apply` gives one character per octet, each below U+0100, with that octet's code |
| Bytes.ToBytes | public/app.js:55-57 | the `charCodeAt` loop gives one octet per character, equal to its code |
| Bytes.BytesRoundTrip | public/app.js:30 | the two conversions are inverse to each other, in both directions |
| Utf8.EncodeScalar | public/app.js:27 | one to four octets; a single octet exactly for ASCII; a valid lead octet followed by continuation octets |
| Utf8.Encode | public/app.js:34 | the UTF-8 of a string has between one and four octets per character |
| Utf8.Decode | public/app.js:63 | a successful strict decode has between a quarter of the octet count and the octet count of characters |
| Utf8.DecodeFirst | public/app.js:63 | a successful strict decode of the front takes 1 to 4 octets, no more than are there |
| Utf8.DecodeFirstEncodeScalar | public/app.js:63 | the octets of one scalar value decode back to it, whatever follows |
| Utf8.DecodeEncode | public/app.js:63-70 | strict decoding (`decodeURIComponent(escape(..))`) inverts the UTF-8 encoding for every string |
| Utf8.TextDecoderDecode | public/app.js:60 | on well-formed octets, `TextDecoder` gives the strict decoding, minus one leading U+FEFF if there is one |
| Utf8.TextDecoderDecodeKeepingBom | public/app.js:60 | the same decoder with `ignoreBOM` gives the strict decoding unchanged |
| Base64.CharOf | public/app.js:30 | every six-bit value maps to a character of the RFC 4648 alphabet |
| Base64.ValueOf | public/app.js:53 | every alphabet character has a six-bit value that maps back to it |
| Base64.EncodeGroups | public/app.js:30 | 4 characters per 3 octets, plus 2 or 3 for a partial group, all in the alphabet |
| Base64.Padding | public/app.js:30 | at most two characters, all `=` |
| Base64.Encode | public/app.js:30 | the padded encoding has a length that is a multiple of four |
| Base64.Btoa | public/app.js:30 | `btoa` succeeds exactly on strings whose characters are all below U+0100 |
| Base64.RemoveAsciiWhitespace | public/app.js:53 | the first step of `atob` leaves no ASCII white space and never lengthens the input |
| Base64.ForgivingDecode | public/app.js:53 | `atob` fails exactly when the cleaned input has length 4k+1 or a character outside the alphabet |
| Base64.Atob | public/app.js:53 | a successful `atob` gives a binary string |
| Base64.GroupRoundTrip | public/app.js:53 | a full group of three octets decodes from its four characters |
| Base64.DecodeEncodeGroups | public/app.js:53 | decoding the unpadded groups gives back every octet (induction on the octets) |
| Base64.PaddingIsDropped | public/app.js:53 | white-space removal and padding removal turn an encoding back into its unpadded groups |
| Base64.DropPadding | public/app.js:53 | removing the `=` of a padded group sequence leaves the groups |
| Base64.NoWhitespaceIsKept | public/app.js:53 | encoder output has no white space, so the first decoding step keeps it whole |
| Base64.DecodeEncode | public/app.js:53 | the forgiving decoder reads back every RFC 4648 encoding exactly |
| Base64.AtobBtoa | public/app.js:53 | `atob(btoa(s)) == s` for every binary string |
| Text.TrimStart | public/app.js:320 | drops the leading white space and nothing else; what is left does not begin with white space |
| Text.TrimEnd | public/app.js:320 | drops the trailing white space and nothing else; what is left does not end with white space |
| Text.Trim | public/app.js:320 | `trim()` neither begins nor ends with white space and is no longer than its input |
| Text.TrimShape | public/app.js:320-321 | `trim()` is the slice of the input between a white-space prefix and a white-space suffix |
| Text.TrimNoWhitespace | public/app.js:321 | a string without white space is its own trim |
| Text.OrDefault | public/app.js:123-125 | `v \|\| d` gives `v` when it is a non-empty string, else `d` |
| Text.Take | public/app.js:94 | `substring(0, n)` is the prefix of length `min(n, length)` |
| Text.Split | public/app.js:1712 | `split` on one character always gives at least one piece |
| Text.SplitCount | public/app.js:1712 | `split` gives one more piece than there are separators |
| Text.SplitPiecesSeparatorFree | public/app.js:1712 | no piece contains the separator |
| Text.JoinSplit | public/app.js:1712 | joining the pieces with the separator restores the string |
| Text.SplitFirstPiece | public/app.js:682 | the first piece is the longest separator-free prefix |
| Text.SplitWithoutSeparator | public/app.js:112 | a string without the separator is one piece |
| Text.LowerChar | public/app.js:321 | lower-casing one character gives one or two characters, none an ASCII capital |
| Text.ToLower | public/app.js:321 | `toLowerCase()` leaves no ASCII capital and at most doubles the length |
| Text.ToLowerKeeps | public/app.js:321 | a string with no capitals and neither special character is its own lower case |
| Text.AfterFirst | public/app.js:112 | what follows the first occurrence of a character is a suffix right after that character |
| Text.AfterFirstOf | public/app.js:112 | the text after a first `c` is found whatever it contains |
| Text.SplitFirstOf | public/app.js:112 | the first piece is exactly the text before the first separator |
| Text.Utf16Length | public/app.js:1711 | `length` counts two code units for a character outside the Basic Multilingual Plane and one for any other, so it lies between the number of characters and twice that, and equals it for BMP-only text |
| Text.Utf16LengthConcat | public/app.js:1711 | the code-unit length of a concatenation is the sum of the lengths |
| Text.ToLowerUtf16Length | public/app.js:321 | lower-casing at most doubles the code-unit length |
| Text.ReplaceChar | public/app.js:321 | one character under a replacement without the `u` flag: kept when matched by the keep class, else one fill; two fills for a character outside the BMP |
| Text.ReplaceOutside | public/app.js:321 | `s.replace(/[^class]/g, fill)` without the `u` flag: one output character per code unit, each in the class or the fill |
| Text.ReplaceOutsideConcat | public/app.js:321 | the replacement works piece by piece: the replacement of a concatenation is the concatenation of the replacements |
| Text.ReplaceOutsideBmp | public/app.js:321 | on BMP-only text the replacement keeps each character in the class and fills every other, position by position |
| Text.ReplaceOutsideKeeps | public/app.js:321 | BMP text made only of class characters and fills is left as it is |
| Codec.ToUrlSafe | public/app.js:31 | the remap to the URL-safe alphabet keeps the length (its inverse is stated by Codec.RemapGroups) |
| Codec.FromUrlSafe | public/app.js:47 | the reverse remap keeps the length |
| Codec.StripTrailingEquals | public/app.js:31 | `/=+$/` removal leaves a prefix that does not end in `=`, and removes only `=` |
| Codec.Equals | public/app.js:49 | `n` copies of `=` |
| Codec.PadTo4 | public/app.js:49 | padding extends the string by fewer than four `=` to a multiple of four |
| Codec.RemapGroups | public/app.js:31-47 | the remap turns alphabet characters into token characters one for one, passes the padding through, and the reverse remap undoes it |
| Codec.PadGroups | public/app.js:49 | the padding loop restores exactly the `=` the encoder wrote |
| Codec.StripEqualsSuffix | public/app.js:31 | stripping a run of `=` from a string that does not end in `=` gives that string |
| Codec.UrlSafeRoundTrip | public/app.js:31-49 | every encoder token is URL-safe, and remap plus padding rebuild the base 64 string exactly |
| Codec.BtoaOfBytes | public/app.js:30 | `btoa` of the binary string of octets never throws and gives their encoding |
| Codec.CompressToURL | public/app.js:23-41 | a token is URL-safe with no trailing `=`; without pako it succeeds on every well-formed text; with pako it fails exactly when the deflated octets exceed the engine's `apply` limit |
| Codec.DecodeToken | public/app.js:44-76 | `null` exactly when both the compressed reading and the plain reading fail; a successful compressed reading wins |
| Codec.PlainDecode | public/app.js:63-70 | the plain reading succeeds only after `atob` does, and yields no more characters than `atob` gave |
| Codec.InflateDecode | public/app.js:51-60 | the compressed reading succeeds exactly when `atob` and INFLATE both do: `TextDecoder` never throws |
| Codec.RestoreBase64 | public/app.js:47-49 | the remap-and-pad loop gives `Codec.Base64Of(token)` |
| Codec.DecompressFromURL | public/app.js:44-76 | the statement-by-statement decoder, with its octet-copy loop and catch-block retry, returns `Codec.DecodeToken` |
| Codec.CodecRoundTrip | public/app.js:23-76 | decoding an encoder token gives back the text: for every well-formed text without pako, and with a sound pako for every well-formed text not starting with U+FEFF |
| Codec.TokenOfOctets | public/app.js:27-35 | the token is the URL-safe base 64 of the deflated UTF-8 (with pako) or of the UTF-8 (without) |
| Codec.TokenDecodesToBytes | public/app.js:47-57 | `atob` of the rebuilt base 64 is the binary string of the encoded octets |
| Codec.FallbackTokenUnderPako | public/app.js:51-70 | a token made without pako, read where pako is loaded, decodes to its text when INFLATE rejects the raw UTF-8 |
| Codec.ImpossibleLengthIsNull | public/app.js:49-74 | a token whose length is 1 modulo 4 always decodes to `null` |
| Codec.BomIsLost | public/app.js:60 | as written, with pako, a text starting with U+FEFF comes back without it, so the round trip fails |
| Codec.BomOnlyTextComesBackEmpty | public/app.js:60 | as written, the one-character text U+FEFF decodes to the empty string |
| Codec.DecodeTokenKeepingBom | public/app.js:44-76 | the corrected decoder returns `null` exactly when both readings fail |
| Codec.CorrectedRoundTrip | public/app.js:23-76 | with the byte-order mark kept, every encoder token decodes to its text, for every well-formed text |
| Codec.CorrectionAgreesWithoutBom | public/app.js:44-76 | on tokens of texts not starting with U+FEFF (every link payload starts with `{`), the decoder as written and the corrected one agree |
| Links.CreateShareableURL | public/app.js:79-100 | `null` exactly when the token is missing or empty; otherwise a URL starting with the viewer prefix |
| Links.CreateAliasURL | public/app.js:103-108 | a short URL exactly when the trimmed alias is non-empty, and it is the base URL, `/` and the trimmed alias |
| Links.ParseNoteFromURL | public/app.js:111-131 | a result always has a non-empty title, and only comes from a `d` parameter that decodes |
| Links.ViewUrlQuery | public/app.js:112 | the query of a viewer URL is `d=` followed by the token |
| Links.QueryFollowsMark | public/app.js:91 | the first `?` of a viewer URL is the one in front of `d=` |
| Links.NoMarksInHead | public/app.js:10 | the base URL and the viewer path contain neither `?` nor `#` |
| Links.QueryOf | public/app.js:112 | `location.search` without its `?`: the text between the first `?` and the first `#`, empty when the `?` is missing or lies in the fragment; it never contains `#` |
| Links.FindParam | public/app.js:112-113 | `None` exactly when no pair has the name as its key; otherwise the pair is the first with that key, and is `name=value` or the bare name with the empty value |
| Links.QueryParam | public/app.js:112-113 | an empty query has no parameter of any non-empty name |
| Links.FragmentHidesQuery | public/app.js:111-116 | a `?` behind the `#` of a viewer URL is no query: no `d` parameter and no shared note |
| Links.ViewUrlCarriesToken | public/app.js:112-113 | `URLSearchParams.get('d')` of a viewer URL is its token |
| Links.ParseOfToken | public/app.js:117-126 | a token that decodes to a parsable JSON text gives the note with the defaults filled in |
| Links.ViewUrlReadsPayload | public/app.js:111-126 | the viewer reads back every payload from the URL of its token, with the defaults for missing fields |
| Links.ShareLinkRoundTrip | public/app.js:79-131 | a note under the ceiling comes back whole: title (or "Shared Note"), content and share time |
| Links.TruncatedUrl | public/app.js:92-96 | over the ceiling, the link carries the token of the cut-down payload |
| Links.TruncatedLinkRoundTrip | public/app.js:92-96 | over the ceiling, the viewer reads the first 8000 characters plus the truncation mark, and its own clock as share time |
| Links.TruncatedLinkMayCarryNull | public/app.js:95-96 | if the cut-down payload cannot be encoded, the link still goes out, ending in `?d=null` |
| Notes.NormalizeAlias | public/app.js:321 | the normalised alias contains only `[a-z0-9-]`, and its length lies between that of the trimmed input and twice that |
| Notes.MaskAlias | public/app.js:321 | one output character per UTF-16 code unit, all in `[a-z0-9-]`; on BMP text each character outside `[a-z0-9-]` becomes `-` and the others stay |
| Notes.AstralBecomesTwoDashes | public/app.js:321 | a character outside the BMP becomes `--`, and the text on either side is masked on its own |
| Notes.AliasIsTrimmed | public/app.js:321 | an alias has no white space to trim |
| Notes.AliasIsLowerCase | public/app.js:321 | an alias is its own lower case |
| Notes.AliasIsMasked | public/app.js:321 | an alias is its own mask |
| Notes.NormalizeAliasKeepsAliases | public/app.js:321 | an alias in normal form is left as it is |
| Notes.NormalizeAliasIdempotent | public/app.js:321 | normalising twice is normalising once |
| Notes.EditedTitle | public/app.js:320 | the title is never empty; it is the trimmed input when that is non-empty |
| Notes.NewNote | public/app.js:270-280 | the new note has the given id, the title "Untitled Note", empty alias and content, and both times equal to now |
| Notes.AliasTaken | public/app.js:324-331 | another note (a different id) already holds the non-empty normalised alias |
| Notes.Edited | public/app.js:333-339 | the edited note keeps its id and creation time, gets a non-empty title, a normalised alias, the editor content and the new time |
| Notes.MoveToFront | public/app.js:342-343 | the note goes to index 0, the notes before its old position move up by one, those after it stay, and the count is kept |
| Notes.SaveResult | public/app.js:314-353 | the count is kept; the list changes only when there is a current note in the list whose alias is free, and then that note is first |
| Notes.AutoSaveResult | public/app.js:356-391 | the count and the id at every position are kept; the list changes only when there is a current note in the list whose alias is free |
| Notes.FindIndex | public/app.js:317 | `findIndex` gives the first position with the id, or none when no note has it |
| Notes.RemoveAt | public/app.js:342 | `splice(i, 1)` removes position `i` and shifts the rest down by one |
| Notes.SaveMovesToFront | public/app.js:333-343 | a successful save puts the edited note at index 0, keeps the count, keeps the others in relative order, and permutes the ids |
| Notes.MoveToFrontKeepsIds | public/app.js:342-343 | moving a note with the same id to the front permutes the ids |
| Notes.AutoSaveInPlace | public/app.js:381-387 | a successful auto-save rewrites the note at its position and touches no other |
| Notes.TakenAliasChangesNothing | public/app.js:324-331 | save and auto-save leave the list unchanged when another note holds the normalised alias |
| Notes.SaveKeepsAliasesUnique | public/app.js:324-343 | with distinct ids, save keeps ids and non-empty aliases distinct |
| Notes.MoveToFrontKeepsUnique | public/app.js:333-343 | moving a note with a free alias to the front keeps ids and aliases distinct |
| Notes.AutoSaveKeepsAliasesUnique | public/app.js:366-387 | with distinct ids, auto-save keeps ids and non-empty aliases distinct |
| Notes.NewNoteKeepsUnique | public/app.js:270-280 | a new note with a fresh id and an empty alias keeps both properties |
| Notes.RemoveKeepsUnique | public/app.js:402 | removing a note keeps both properties |
| Versions.MakeVersion | public/app.js:1893-1897 | the entry holds the content and a preview that is its prefix of at most 100 characters |
| Versions.Cap | public/app.js:1876-1878 | at most ten entries, a prefix of the list, and the list itself when it is short enough |
| Versions.CapAll | public/app.js:1872-1879 | every note id kept, every list capped |
| Versions.SaveVersionResult | public/app.js:1883-1899 | every note id is kept and the saved note gets a list whose newest entry holds the content just saved |
| Versions.ShouldRecordVersion | public/app.js:376 | a version is recorded only when both contents are non-empty and their lengths in code units differ by more than 50, so never for an unchanged content |
| Versions.SaveVersionNewestFirst | public/app.js:1883-1899 | after `saveVersion` the newest entry has the content just saved, and every list is capped |
| Versions.SaveVersionDeduplicates | public/app.js:1888-1891 | a content equal to the newest entry changes nothing |
| Versions.SaveVersionPrepends | public/app.js:1893-1899 | otherwise the new entry goes in front, older entries keep their order up to the cap, and other notes' lists are only capped |
| Versions.CapAllIdempotent | public/app.js:1872-1879 | capping twice is capping once |
| Mirror.Merge | public/app.js:906 | the merge has every key of both maps, and the local entry on every collision |
| Mirror.MergeIdempotent | public/app.js:906 | merging the same manifest again changes nothing |
| Mirror.EntryFor | public/app.js:924-932 | the stored entry carries the note id, the share URL and the token |
| Mirror.Read | public/app.js:955 | `notes[key]` is the object's own entry when there is one, else the member inherited from `Object.prototype`, and `undefined` only when neither exists |
| Mirror.Lookup | public/app.js:959-961 | `notes[alias] \|\| notes[noteId]`: an own entry under the alias wins; the result is one of the two reads, and none only when neither key reads anything |
| Mirror.LookupIsById | public/app.js:959-961 | with id keys that contain `_` and a normalised alias, the lookup is by note id alone, except for the alias `constructor`, which reads the inherited constructor |
| Mirror.OnlyConstructorIsAlias | public/app.js:960 | of the inherited member names only `constructor` is spelled like a normalised alias |
| Mirror.ConstructorAliasIsShared | public/app.js:959-961 | `isNoteShared(id, "constructor")` is truthy whatever the mirror holds |
| Mirror.SharedMirror.constructor | public/app.js:13-18 | the mirror starts empty |
| Mirror.SharedMirror.MergeManifest | public/app.js:900-913 | a fetched manifest is merged under the local entries; no manifest changes nothing |
| Mirror.SharedMirror.AddToSharedNotes | public/app.js:922-945 | upsert under the note id; the token recorded under the trimmed alias only for a non-blank alias; returns the note id |
| Mirror.SharedMirror.RemoveFromSharedNotes | public/app.js:948-951 | exactly that one key is deleted; the alias map is kept |
| Mirror.SharedMirror.GetSharedNote | public/app.js:954-956 | the own entry under the id when there is one; `undefined` exactly when the id is neither stored nor inherited |
| Mirror.SharedMirror.IsNoteShared | public/app.js:959-961 | an entry stored under the alias wins; an alias that is neither stored nor inherited leaves the lookup by note id |
| Mirror.AddThenRemove | public/app.js:922-951 | sharing a note that had not been shared and then removing it restores the map |
| Editing.InsertFormatted | public/app.js:621-637 | the text grows by the two markers, and the cursor lies within the text |
| Editing.InsertFormattedUnwraps | public/app.js:626-633 | the markers sit exactly around the old selection: cutting them out restores the text, and the cursor follows the closing marker when there was a selection, else the opening one |
| Editing.NextViewMode | public/app.js:640-657 | the next mode is one of the three modes and differs from the current one |
| Editing.ViewModeCycle | public/app.js:644-656 | the three modes form a cycle of length three, and any other value goes to `split` |
| Editing.SanitizeFilename | public/app.js:1693-1695 | the code-unit length of the name capped at 50, all `[A-Za-z0-9_]`; on BMP text a character is kept exactly when it is alphanumeric or `_` |
| Editing.AstralBecomesTwoUnderscores | public/app.js:1694 | a character outside the BMP becomes `__`, and the text on either side is sanitised on its own |
| Editing.SanitizeFilenameIdempotent | public/app.js:1693-1695 | sanitising twice is sanitising once |
| Editing.WordCount | public/app.js:1710 | no words exactly when the trimmed text is empty |
| Editing.NoteStats | public/app.js:1708-1719 | words = the number of word runs, chars = the length in UTF-16 code units, lines = line breaks + 1, reading minutes = words / 200 rounded up |
| Editing.WordCountIsWordRuns | public/app.js:1710 | the `trim().split(/\s+/)` count equals the number of maximal non-white-space runs, for every text |
| Editing.WordRunsOfTrim | public/app.js:1710 | trimming removes no word |
| Editing.WordRunsOneMoreThanGaps | public/app.js:1710 | in a text that starts with a word, words and gaps alternate |
| Editing.WordRunsAppendWhitespace | public/app.js:1710 | trailing white space adds no word |
| Editing.WordRunsPrependWhitespace | public/app.js:1710 | leading white space adds no word |
| Editing.StripHeadingMarks | public/app.js:682 | `/^#*\s*/` removal leaves a suffix of the line that does not begin with white space |
| Editing.FirstLineTitle | public/app.js:682 | the proposed title has at most 50 characters, no line break, and does not begin with white space |
| Editing.StripOneMark | public/app.js:682 | one leading `#` is dropped |
| Editing.StripSpace | public/app.js:682 | a leading space goes with the following white space |
| Editing.StripMarkedHeading | public/app.js:682 | `# ` is removed from a heading that starts with neither `#` nor white space |
| Editing.HeadingBecomesTitle | public/app.js:682-685 | a Markdown heading on the first line becomes the title |
| NoteApp.ImportedNotes | public/app.js:2154-2167 | no more notes than elements, each with a title, content and the import time |
| NoteApp.ImportStep | public/app.js:2154-2166 | one more element puts its note, if accepted, in front of those of the elements before it |
| NoteApp.ImportedNotesCount | public/app.js:2153-2166 | exactly the accepted elements are imported |
| NoteApp.ImportKeepsIdsUnique | public/app.js:2156-2164 | with fresh distinct ids, the import keeps note ids distinct |
| NoteApp.FirstNull | public/app.js:2154-2155 | the position of the first `null` element (where `note.title` throws), or the length when there is none |
| NoteApp.DeleteApplies | public/app.js:395-400 | the delete goes ahead: a current note, a confirmation, and the note in the list |
| NoteApp.DeleteResult | public/app.js:394-413 | nothing changes unless the delete goes ahead; then the list has one note fewer, or the one fresh note when it would be empty |
| NoteApp.AutoSaveStep | public/app.js:356-391 | the count is kept; switched off, nothing changes; the history changes only when enabled with a current note, and then holds that note |
| NoteApp.DeleteRemovesCurrent | public/app.js:394-410 | delete removes exactly the current note, and a fresh note replaces it when the list would be empty |
| NoteApp.AutoSaveIndex | public/app.js:357-360 | auto-save writes only when enabled, and only at the position of the current note |
| NoteApp.AutoSaveStepNotes | public/app.js:356-391 | the notes auto-save leaves are the in-place store operation when enabled, and the old notes when disabled |
| NoteApp.AutoSaveRecordsOldContent | public/app.js:376-379 | a version is recorded only for a large length change on a written note, and then the newest version holds the previous content |
| NoteApp.AutoSaveSkips | public/app.js:357-360 | at the gate, auto-save changes nothing |
| NoteApp.AutoSaveConflicts | public/app.js:367-372 | on an alias conflict only the alias input is reset to the stored alias |
| NoteApp.AutoSaveWrites | public/app.js:376-387 | otherwise the note is edited in place, after recording a version when the change is large |
| NoteApp.SaveWrites | public/app.js:333-343 | a save that passes the checks moves the edited note to the front |
| NoteApp.NoteEditor.constructor | public/app.js:134-147 | no notes, no current note, auto-save on, no versions, split view |
| NoteApp.NoteEditor.LoadNote | public/app.js:293-311 | an absent id changes nothing; otherwise the note's fields fill the inputs and it becomes current; the caret goes to the end of the text when the editor value changes, and the selection stays when it does not |
| NoteApp.NoteEditor.CreateNewNote | public/app.js:270-285 | exactly one "Untitled Note" with empty alias and content goes in front, and it is loaded |
| NoteApp.NoteEditor.SaveNote | public/app.js:314-353 | the notes become `Notes.SaveResult` of the old state and the inputs |
| NoteApp.NoteEditor.AutoSave | public/app.js:356-391 | notes, versions and the alias input become `NoteApp.AutoSaveStep` of the old state |
| NoteApp.NoteEditor.SaveVersion | public/app.js:1883-1899 | the history becomes `Versions.SaveVersionResult` of the old one |
| NoteApp.NoteEditor.CapVersions | public/app.js:1872-1879 | the `forEach` loop leaves every list capped (`Versions.CapAll`) |
| NoteApp.NoteEditor.DeleteCurrentNote | public/app.js:394-413 | the notes become `NoteApp.DeleteResult`; after a delete the first note is current and its title, alias and content fill the inputs, with the selection kept when the editor value is unchanged and the caret at the end otherwise; otherwise nothing changes |
| NoteApp.NoteEditor.ImportJson | public/app.js:2140-2180 | an unreadable file changes nothing; otherwise the accepted notes up to the first `null` element are unshifted in turn; a `null` element ends in the error branch with those notes kept and nothing loaded; without one, the count is returned and the first note is loaded: it is current and its title, alias and content fill the inputs, with the selection kept when the editor value is unchanged and the caret at the end otherwise; when the list stays empty, the current note and every input are left as they were |
| NoteApp.NoteEditor.UnshiftImported | public/app.js:2153-2167 | the `forEach` stops at the first `null` element, having unshifted exactly the notes of the accepted elements before it and counted them |
| NoteApp.NoteEditor.SetAutoSave | public/app.js:1771-1775 | the setting follows the checkbox |
| NoteApp.NoteEditor.InsertFormat | public/app.js:621-637 | the editor text and cursor become `Editing.InsertFormatted` of the old ones |
| NoteApp.NoteEditor.ToggleView | public/app.js:640-657 | the mode becomes `Editing.NextViewMode` of the old one |
| LegacyApp.LegacyEditor.constructor | app.js:9-11 | no notes, no current note, split view |
| LegacyApp.LegacyEditor.LoadNote | app.js:145-163 | an absent id changes nothing; otherwise the note's fields fill the inputs and it becomes current; the caret goes to the end of the text when the editor value changes, and the selection stays when it does not |
| LegacyApp.LegacyEditor.CreateNewNote | app.js:122-137 | exactly one "Untitled Note" with empty alias and content goes in front, and it is loaded |
| LegacyApp.LegacyEditor.SaveNote | app.js:166-205 | the notes become `Notes.SaveResult`: refused on an alias conflict, otherwise the edited note moves to the front |
| LegacyApp.LegacyEditor.AutoSave | app.js:208-237 | notes and alias input become the later editor's auto-save, always enabled and without versions |
| LegacyApp.LegacyEditor.DeleteCurrentNote | app.js:240-259 | the notes become `NoteApp.DeleteResult`; after a delete the list is non-empty, its first note is current and its title, alias and content fill the inputs, with the selection kept when the editor value is unchanged and the caret at the end otherwise; otherwise nothing changes |
| LegacyApp.LegacyEditor.InsertFormat | app.js:387-403 | the editor text and cursor become `Editing.InsertFormatted` of the old ones |
| LegacyApp.LegacyEditor.ToggleView | app.js:406-423 | the mode becomes `Editing.NextViewMode` of the old one |
| LegacyApp.LegacyAutoSaveAgrees | app.js:208-237 | the earlier auto-save writes the in-place store operation, the same notes and alias input as the later one switched on |
| Worker.Share | _worker.js:83-122 | a share changes the store only when it answers 200 |
| Worker.GetNote | _worker.js:125-156 | a read changes the store only when it answers 200 |
| Worker.DeleteNote | _worker.js:159-179 | a delete changes the store only when it answers 200 |
| Worker.ListEntries | _worker.js:195-206 | at most one entry per listed key |
| Worker.ListNotes | _worker.js:182-216 | listing never changes the store |
| Worker.CheckAlias | _worker.js:219-233 | the availability check never changes the store |
| Worker.Api | _worker.js:69-238 | no API request changes the store without answering 200 |
| Worker.ServerAliasOk | _worker.js:95 | `/^[a-zA-Z0-9_-]{2,50}$/`: 2 to 50 characters of the pattern's class |
| Worker.IsStatic | _worker.js:26-32 | a path is static when its lower case ends in a static extension or it is one of the static paths |
| Worker.FaultsAnswer500 | _worker.js:117-232 | every namespace failure (unreadable share body, failed write of a share or delete, failed read of a note, the list or a check) answers 500 with the route's message prefix and the error, and writes nothing |
| Worker.RouteOf | _worker.js:5-61 | `OPTIONS` exactly goes to the preflight, any other `/api/` path exactly to the API, and the viewer rewrite only for a non-static `/<alias>` or `/<alias>/` outside `/api/` |
| Worker.Serve | _worker.js:5-65 | the namespace changes only on an API route answering 200; the handler throws only when the namespace is bound, its read fails, and the path is not an API path |
| Worker.AliasFromPath | _worker.js:37-40 | a capture is non-empty, made of `[a-zA-Z0-9_-]`, and the path is `/` + capture, optionally followed by `/` |
| Worker.AliasStore.constructor | _worker.js:76 | the store starts with the given binding and contents |
| Worker.AliasStore.HandleApi | _worker.js:69-238 | the response and the new store are `Worker.Api` of the old store |
| Worker.AliasStore.CollectEntries | _worker.js:193-206 | the `for` loop pushes exactly `Worker.ListEntries` |
| Worker.AliasStore.Fetch | _worker.js:5-65 | the outcome and the new store are `Worker.Serve` of the old store |
| Worker.UnboundFails | _worker.js:76-80 | without the binding every API request answers 500 and writes nothing |
| Worker.ShareNeedsFields | _worker.js:88-92 | a missing alias or data answers 400 and writes nothing |
| Worker.ShareChecksPattern | _worker.js:95-99 | an alias outside `[a-zA-Z0-9_-]{2,50}` answers 400 and writes nothing |
| Worker.ServerAliasExamples | _worker.js:95 | "ab" and "AB_-9" pass the pattern, "a" fails |
| Worker.ClientAliasesPassServerCheck | _worker.js:95 | every editor alias of 2 to 50 characters passes; "AB" passes but is no editor alias |
| Worker.ShareOverwrites | _worker.js:102-115 | a valid share overwrites the key with the data, the title or "Untitled", the time and views 0, and answers with `/alias` |
| Worker.NotePath | _worker.js:125-126 | `/api/note/<alias>` names exactly that alias and no other route's path |
| Worker.SharedNoteReadsBack | _worker.js:102-149 | what was shared is read back with one view, and that count is stored |
| Worker.GetAbsent | _worker.js:129-135 | reading an absent alias answers 404 and writes nothing |
| Worker.GetCountsView | _worker.js:137-149 | reading answers views = stored (or 0) + 1 and stores it unless the write fails |
| Worker.ShareResetsViews | _worker.js:102-109 | sharing again under a viewed alias lowers its view count |
| Worker.DeleteNeedsKey | _worker.js:161-167 | a delete without the master key answers 401 and writes nothing |
| Worker.DeleteRemoves | _worker.js:169-173 | with the key, the alias is removed and 200 is answered whether it existed or not |
| Worker.ListNeedsKey | _worker.js:182-210 | listing without the key answers 401; with it, the entries of the listed keys; never a write |
| Worker.ListEntriesSound | _worker.js:195-206 | every entry is a listed key holding a record, with its title, time and views (absent as 0) |
| Worker.ListEntriesComplete | _worker.js:195-206 | every listed key holding a record has its entry |
| Worker.ListEntriesLength | _worker.js:195-206 | when every listed key holds a record, one entry per key |
| Worker.CheckReportsAbsence | _worker.js:219-227 | `available` exactly when nothing is stored under the alias |
| Worker.UnmatchedIsNotFound | _worker.js:235-237 | an unmatched method and path answers 404 and writes nothing |
| Worker.OptionsIsPreflight | _worker.js:10-18 | every `OPTIONS` request gets the preflight |
| Worker.ApiPathsReachApi | _worker.js:21-23 | every other request under `/api/` is the API's |
| Worker.AliasPathParses | _worker.js:37-40 | `/<alias>` and `/<alias>/` capture the alias |
| Worker.LowerKeepsNoDot | _worker.js:29 | lower-casing brings no `.` into a path |
| Worker.DotlessHasNoDotSuffix | _worker.js:29 | a dotless string ends in no suffix starting with `.` |
| Worker.ExtensionsStartWithDot | _worker.js:26 | every static extension begins with `.` |
| Worker.NoStaticExtension | _worker.js:26-29 | a dotless path has no static extension |
| Worker.NotAStaticPath | _worker.js:27-30 | a dotless path of two or more characters is no static path |
| Worker.DotlessIsNotStatic | _worker.js:26-32 | a dotless path other than `/` is not static |
| Worker.AliasPathReachesViewer | _worker.js:21-61 | `/<alias>` reaches the viewer rewrite for every method but `OPTIONS` |
| Worker.ClientShortLinkReachesViewer | _worker.js:37-61 | the short link the editor builds for a normalised alias reaches the viewer |
| Worker.ViewerIgnoresStore | _worker.js:42-60 | the rewrite gives the same viewer page whether or not the alias is stored |

## Left out

- Persistence and I/O. Not modelled:
  - `localStorage`, `sessionStorage`, `fetch` (`saveToKV`, `getFromKV`, `refreshSharedList`, `deleteFromKV`, `importFromUrl`);
  - `FileReader` and blob downloads;
  - the DOM, rendering (marked, KaTeX, highlight.js, mermaid, DOMPurify), toasts and modals;
  - social sharing and QR drawing;
  - the generated hosting files;
  - the service worker public/sw.js.

  Their inputs and outputs appear as parameters where a modelled operation depends on them.
- Timers: the debounce timers and the `setTimeout` in paste handling. Each handler runs to completion.
- DEFLATE, INFLATE and JSON: the algorithms are not modelled. They are parameters with round-trip hypotheses.
- Malformed octets into `TextDecoder`: what it makes of them is a parameter.
- `preprocessMath`/`postprocessMath`: they depend on JavaScript regular-expression replacement quirks and a global.
- Concurrency in the worker:
  - The view-count write is not awaited, and concurrent reads can lose updates. The model applies reads one at a time; only a failing write is modelled.
  - KV `list()` paging and eventual consistency are not modelled. The listed keys are an input.
- CORS and content-type headers: not modelled.
- JSON field values that are not strings: not modelled, for the share body, the stored record, the link payload or imported notes. A missing or empty string stands for every falsy value.
- Query parameters and UTF-16 length:
  - The viewer rewrite keeps the request's other query parameters; the model returns only the alias.
  - `URLSearchParams` percent-decoding is not modelled; tokens never contain `%` or `+`.
  - Strings are sequences of Unicode scalar values. A JavaScript string is a sequence of UTF-16 code units, in which a character outside the Basic Multilingual Plane takes two units and an unpaired surrogate unit may also occur; strings holding one have no counterpart in the model. Lengths the code compares (`Text.Utf16Length`) and the regular-expression replacements (`Text.ReplaceOutside`) are counted in code units. The following still count characters, because a cut inside a surrogate pair has no counterpart in a sequence of scalar values:
    - `substring` bounds in Text.Take, Links.CreateShareableURL (8000), Versions.MakeVersion (100) and Editing.FirstLineTitle (50);
    - selection offsets in Editing.InsertFormatted.
- Codec.CompressToURL, Codec.CodecRoundTrip: stated for well-formed text only. On a string holding an unpaired surrogate, the encoder without pako returns `null`, because `encodeURIComponent` throws; with pako, `TextEncoder` writes U+FFFD in its place, so decoding gives back a different string (public/app.js:23-41). The share links are not affected: their builders encode only `JSON.stringify` output, which escapes a lone surrogate as a `\u` sequence (public/app.js:85, 95, 1030).
- Text.LowerChar: models `toLowerCase` only for ASCII capitals and the two characters whose lower case is ASCII (U+212A, U+0130). Every other character is kept. Its callers mask every non-ASCII character (alias normalisation) or compare the result only with ASCII suffixes (the static-file test of the worker), so this cannot change their results.
- Mirror.Read: models reads only. The model does not capture assigning to or deleting an inherited name: the setter of `__proto__` in `addToSharedNotes`, or a `delete` that leaves an inherited member readable. Note ids start with `note_`, so this needs an id that `generateId` never makes.
- Worker.Share, Worker.GetNote, Worker.DeleteNote, Worker.ListNotes, Worker.CheckAlias, Worker.Api: their own contracts state only the write/status pairing. What each answers and writes on every route is stated by the Worker lemmas in the table, the failures by Worker.FaultsAnswer500.
- Worker.ListEntries: its own contract states only the length bound. Its contents are stated by Worker.ListEntriesSound and Worker.ListEntriesComplete.
- Editing.InsertFormatted: its own contract states only lengths. The splice and the cursor are stated by Editing.InsertFormattedUnwraps.
- `handleFileImport`, `importNotes` and `handlePaste`: modelled only through the title they propose (Editing.FirstLineTitle). Creating the note and auto-saving it reuse the modelled handlers.
- `generateId`: its random id is an input. Uniqueness of ids is a hypothesis where a proof needs it.
- `duplicateNote`, `clearAllNotes`, version preview/restore, settings other than auto-save, and the master-key screen: not modelled; they are outside the sharing pipeline and the note store.

## Findings

| source | as written | input that shows it | evidently intended | confidence | as-written member | corrected member |
|---|---|---|---|---|---|---|
| public/app.js:60 | with pako loaded, the compressed reading decodes with `new TextDecoder()`, which drops a leading U+FEFF | the text "﻿" (or any text starting with U+FEFF) encodes and then decodes to "" (the text without its first character) | `decompressFromURL(compressToURL(s)) == s` for every `s`, by decoding with `ignoreBOM: true` | not executed | Codec.BomIsLost, Codec.BomOnlyTextComesBackEmpty | Codec.DecodeTokenKeepingBom, Codec.CorrectedRoundTrip |

Share links serialise a JSON object, which starts with `{`. On those payloads the two decoders agree (`Codec.CorrectionAgreesWithoutBom`), so the link model keeps the decoder as written.
