/** The link builder of public/app.js: a note becomes the viewer URL
    `https://markdown.toontamilindia.in/view.html?d=<token>`, where the token encodes the
    JSON object `{t: title, c: content, d: timestamp}`. A URL longer than 15000
    characters is replaced by one for `{t, c: first 8000 characters + "\n\n...(truncated)"}`
    without re-checking its length. A note with an alias also has the short URL
    `https://markdown.toontamilindia.in/<alias>`. The viewer reads the `d` query
    parameter back and fills in defaults for missing fields.

    `JSON.stringify`/`JSON.parse` are parameters (`Json`); `JsonSound` states the facts
    about them the proofs use. */
module Links {
  import opened Wrappers
  import opened Text
  import opened Codec

  const BASE_URL: string := "https://markdown.toontamilindia.in"
  const VIEW_PATH: string := "/view.html"
  const VIEW_PREFIX: string := BASE_URL + VIEW_PATH + "?d="
  const MAX_URL_LENGTH: nat := 15000
  const TRUNCATED_LENGTH: nat := 8000
  const TRUNCATION_MARK: string := "\n\n...(truncated)"
  const SHARED_NOTE_TITLE: string := "Shared Note"

  /** The object serialised into a token. A field is `None` where the object lacks it (or
      holds something other than a string, once parsed). */
  datatype Payload = Payload(t: Option<string>, c: Option<string>, d: Option<string>)

  /** `JSON.stringify` of a payload, and `JSON.parse` of a string read as a payload;
      `None` where `JSON.parse` throws or yields `null`. */
  datatype Json = Json(stringify: Payload -> string, parse: string -> Option<Payload>)

  /** Parsing gives back what was serialised, and a serialised object starts with `{`. */
  ghost predicate JsonSound(j: Json) {
    forall p :: j.parse(j.stringify(p)) == Some(p) && j.stringify(p) != [] && j.stringify(p)[0] == '{'
  }

  /** What `parseNoteFromURL` returns. */
  datatype SharedNote = SharedNote(title: string, content: string, sharedAt: string)

  /** The viewer URL carrying a token. */
  function ViewUrl(token: string): string {
    VIEW_PREFIX + token
  }

  /** `createShareableURL(note)` at time `now`. */
  function CreateShareableURL(rt: Runtime, json: Json, title: string, content: string, now: string): (r: Option<string>)
    ensures r.Some? ==> |VIEW_PREFIX| <= |r.value| && r.value[..|VIEW_PREFIX|] == VIEW_PREFIX
    ensures r.None? <==>
      var full := CompressToURL(rt, json.stringify(Payload(Some(title), Some(content), Some(now))));
      full.None? || full.value == ""
  {
    var encoded := CompressToURL(rt, json.stringify(Payload(Some(title), Some(content), Some(now))));
    if encoded.None? || encoded.value == "" then None
    else
      var url := ViewUrl(encoded.value);
      if |url| > MAX_URL_LENGTH then
        var short := Payload(Some(title), Some(Take(content, TRUNCATED_LENGTH) + TRUNCATION_MARK), None);
        var shortEncoded := CompressToURL(rt, json.stringify(short));
        // a template literal turns a null token into the text "null"
        Some(ViewUrl(if shortEncoded.None? then "null" else shortEncoded.value))
      else Some(url)
  }

  /** `createAliasURL(note)`: the short URL when the alias is non-blank. */
  function CreateAliasURL(alias: Option<string>): (r: Option<string>)
    ensures r.Some? <==> alias.Some? && Trim(alias.value) != ""
    ensures r.Some? ==> r.value == BASE_URL + "/" + Trim(alias.value)
  {
    if alias.Some? && alias.value != "" && Trim(alias.value) != "" then Some(BASE_URL + "/" + Trim(alias.value))
    else None
  }

  /** `window.location.search` without its `?`: the text between the first `?` and the
      first `#`; empty when the URL has no `?` in front of its fragment. */
  function QueryOf(url: string): (r: string)
    ensures forall i :: 0 <= i < |r| ==> r[i] != '#'
  {
    var beforeFragment := Split(url, '#')[0];
    SplitFirstPiece(url, '#');
    match AfterFirst(beforeFragment, '?')
    case None => ""
    case Some(rest) => rest
  }

  /** The value of the first `name=value` pair named `name`; a bare `name` has the empty
      value. */
  function FindParam(pairs: seq<string>, name: string): (r: Option<string>)
    ensures r.None? ==> forall k :: 0 <= k < |pairs| ==> Split(pairs[k], '=')[0] != name
    ensures r.Some? ==>
      exists k :: 0 <= k < |pairs| && (forall j :: 0 <= j < k ==> Split(pairs[j], '=')[0] != name) &&
                  (pairs[k] == name + "=" + r.value || (pairs[k] == name && r.value == ""))
    decreases |pairs|
  {
    if pairs == [] then None
    else
      var pair := pairs[0];
      var key := Split(pair, '=')[0];
      SplitFirstPiece(pair, '=');
      if key == name then Some(if |key| < |pair| then pair[|key| + 1..] else "")
      else FindParam(pairs[1..], name)
  }

  /** `new URLSearchParams(search).get(name)`. */
  function QueryParam(url: string, name: string): (r: Option<string>)
    ensures QueryOf(url) == "" && name != "" ==> r.None?
  {
    FindParam(Split(QueryOf(url), '&'), name)
  }

  /** `parseNoteFromURL()` on the page URL `url` at time `now`. */
  function ParseNoteFromURL(rt: Runtime, json: Json, url: string, now: string): (r: Option<SharedNote>)
    ensures r.Some? ==> r.value.title != ""
    ensures r.Some? ==> QueryParam(url, "d").Some? && DecodeToken(rt, QueryParam(url, "d").value).Some?
  {
    var encoded := QueryParam(url, "d");
    if encoded.None? || encoded.value == "" then None
    else match DecodeToken(rt, encoded.value)
      case None => None
      case Some(jsonStr) =>
        if jsonStr == "" then None
        else match json.parse(jsonStr)
          case None => None
          case Some(data) =>
            Some(SharedNote(OrDefault(data.t, SHARED_NOTE_TITLE), OrDefault(data.c, ""), OrDefault(data.d, now)))
  }

  /** The query parameter `d` of a viewer URL is the token it was built from. */
  lemma ViewUrlCarriesToken(token: string)
    requires IsToken(token)
    ensures QueryParam(ViewUrl(token), "d") == Some(token)
  {
    var query := "d=" + token;
    ViewUrlQuery(token);
    assert forall i :: 0 <= i < |query| ==> query[i] != '&';
    SplitWithoutSeparator(query, '&');
    SplitFirstPiece(query, '=');
    assert Split(query, '=')[0] == "d";
    assert query[2..] == token;
    assert FindParam([query], "d") == Some(token);
  }

  /** The query of a viewer URL is `d=` and the token. */
  lemma ViewUrlQuery(token: string)
    requires IsToken(token)
    ensures QueryOf(ViewUrl(token)) == "d=" + token
  {
    var url := ViewUrl(token);
    QueryFollowsMark(token);
    NoMarksInHead();
    assert forall i :: 0 <= i < |url| ==> url[i] != '#' by {
      assert url == BASE_URL + VIEW_PATH + "?d=" + token;
    }
    SplitWithoutSeparator(url, '#');
  }

  /** A `?` behind the `#` belongs to the fragment: the page sees no query, so no `d`
      parameter and no shared note. */
  lemma FragmentHidesQuery(rt: Runtime, json: Json, rest: string, now: string)
    ensures QueryOf(BASE_URL + VIEW_PATH + "#" + rest) == ""
    ensures QueryParam(BASE_URL + VIEW_PATH + "#" + rest, "d").None?
    ensures ParseNoteFromURL(rt, json, BASE_URL + VIEW_PATH + "#" + rest, now).None?
  {
    var head := BASE_URL + VIEW_PATH;
    NoMarksInHead();
    SplitFirstOf(head, '#', rest);
    assert head + "#" + rest == head + ['#'] + rest;
    assert Split("", '&') == [""];
    assert Split("", '=') == [""];
    assert [""][1..] == [];
    assert FindParam([""], "d") == FindParam([], "d");
  }

  /** The first `?` of a viewer URL is the one in front of `d=`. */
  lemma QueryFollowsMark(token: string)
    ensures AfterFirst(ViewUrl(token), '?') == Some("d=" + token)
  {
    var head := BASE_URL + VIEW_PATH;
    var query := "d=" + token;
    assert ViewUrl(token) == head + ['?'] + query;
    NoMarksInHead();
    AfterFirstOf(head, '?', query);
  }

  lemma NoMarksInHead()
    ensures forall i :: 0 <= i < |BASE_URL + VIEW_PATH| ==>
      (BASE_URL + VIEW_PATH)[i] != '?' && (BASE_URL + VIEW_PATH)[i] != '#'
  {
  }

  /** The viewer reads back a payload from the URL built from its token. */
  lemma ViewUrlReadsPayload(rt: Runtime, json: Json, p: Payload, later: string)
    requires JsonSound(json)
    requires rt.pako.Some? ==> ZlibSound(rt.pako.value)
    requires CompressToURL(rt, json.stringify(p)).Some? && CompressToURL(rt, json.stringify(p)).value != ""
    ensures var token := CompressToURL(rt, json.stringify(p)).value;
      ParseNoteFromURL(rt, json, ViewUrl(token), later) ==
        Some(SharedNote(OrDefault(p.t, SHARED_NOTE_TITLE), OrDefault(p.c, ""), OrDefault(p.d, later)))
  {
    var text := json.stringify(p);
    assert json.parse(text) == Some(p) && text != [] && text[0] == '{';
    var token := CompressToURL(rt, text).value;
    CodecRoundTrip(rt, text);
    assert DecodeToken(rt, token) == Some(text);
    ViewUrlCarriesToken(token);
    ParseOfToken(rt, json, token, text, p, later);
  }

  lemma ParseOfToken(rt: Runtime, json: Json, token: string, text: string, p: Payload, later: string)
    requires QueryParam(ViewUrl(token), "d") == Some(token) && token != ""
    requires DecodeToken(rt, token) == Some(text) && text != "" && json.parse(text) == Some(p)
    ensures ParseNoteFromURL(rt, json, ViewUrl(token), later) ==
      Some(SharedNote(OrDefault(p.t, SHARED_NOTE_TITLE), OrDefault(p.c, ""), OrDefault(p.d, later)))
  {
  }

  /** A note that fits under the ceiling comes back whole: the viewer reads the title
      (or "Shared Note" when it is empty), the content and the share time (its own clock
      only if the share time was empty). */
  lemma ShareLinkRoundTrip(rt: Runtime, json: Json, title: string, content: string, now: string, later: string)
    requires JsonSound(json)
    requires rt.pako.Some? ==> ZlibSound(rt.pako.value)
    requires var full := CompressToURL(rt, json.stringify(Payload(Some(title), Some(content), Some(now))));
      full.Some? && full.value != "" && |ViewUrl(full.value)| <= MAX_URL_LENGTH
    ensures CreateShareableURL(rt, json, title, content, now).Some?
    ensures ParseNoteFromURL(rt, json, CreateShareableURL(rt, json, title, content, now).value, later) ==
      Some(SharedNote(OrDefault(Some(title), SHARED_NOTE_TITLE), content, OrDefault(Some(now), later)))
  {
    var p := Payload(Some(title), Some(content), Some(now));
    var token := CompressToURL(rt, json.stringify(p)).value;
    assert CreateShareableURL(rt, json, title, content, now) == Some(ViewUrl(token));
    ViewUrlReadsPayload(rt, json, p, later);
  }

  /** A note over the ceiling is shared cut down: the viewer reads the title, the first
      8000 characters of the content followed by the truncation mark, and, since the
      timestamp was dropped, its own clock as the share time. */
  lemma TruncatedLinkRoundTrip(rt: Runtime, json: Json, title: string, content: string, now: string, later: string)
    requires JsonSound(json)
    requires rt.pako.Some? ==> ZlibSound(rt.pako.value)
    requires var full := CompressToURL(rt, json.stringify(Payload(Some(title), Some(content), Some(now))));
      full.Some? && full.value != "" && |ViewUrl(full.value)| > MAX_URL_LENGTH
    requires var short := CompressToURL(rt, json.stringify(Payload(Some(title), Some(Take(content, TRUNCATED_LENGTH) + TRUNCATION_MARK), None)));
      short.Some? && short.value != ""
    ensures CreateShareableURL(rt, json, title, content, now).Some?
    ensures ParseNoteFromURL(rt, json, CreateShareableURL(rt, json, title, content, now).value, later) ==
      Some(SharedNote(OrDefault(Some(title), SHARED_NOTE_TITLE), Take(content, TRUNCATED_LENGTH) + TRUNCATION_MARK, later))
  {
    var short := Payload(Some(title), Some(Take(content, TRUNCATED_LENGTH) + TRUNCATION_MARK), None);
    var token := TruncatedUrl(rt, json, title, content, now);
    ViewUrlReadsPayload(rt, json, short, later);
  }

  /** Over the ceiling, the link carries the token of the cut-down payload. */
  lemma TruncatedUrl(rt: Runtime, json: Json, title: string, content: string, now: string) returns (token: string)
    requires var full := CompressToURL(rt, json.stringify(Payload(Some(title), Some(content), Some(now))));
      full.Some? && full.value != "" && |ViewUrl(full.value)| > MAX_URL_LENGTH
    requires CompressToURL(rt, json.stringify(Payload(Some(title), Some(Take(content, TRUNCATED_LENGTH) + TRUNCATION_MARK), None))).Some?
    ensures token == CompressToURL(rt, json.stringify(Payload(Some(title), Some(Take(content, TRUNCATED_LENGTH) + TRUNCATION_MARK), None))).value
    ensures CreateShareableURL(rt, json, title, content, now) == Some(ViewUrl(token))
  {
    token := CompressToURL(rt, json.stringify(Payload(Some(title), Some(Take(content, TRUNCATED_LENGTH) + TRUNCATION_MARK), None))).value;
  }

  /** When the cut-down payload cannot be encoded either, the link still goes out, with
      the literal token `null`. */
  lemma TruncatedLinkMayCarryNull(rt: Runtime, json: Json, title: string, content: string, now: string)
    requires var full := CompressToURL(rt, json.stringify(Payload(Some(title), Some(content), Some(now))));
      full.Some? && full.value != "" && |ViewUrl(full.value)| > MAX_URL_LENGTH
    requires CompressToURL(rt, json.stringify(Payload(Some(title), Some(Take(content, TRUNCATED_LENGTH) + TRUNCATION_MARK), None))).None?
    ensures CreateShareableURL(rt, json, title, content, now) == Some(VIEW_PREFIX + "null")
  {
  }
}
