/** The Cloudflare worker in _worker.js: a router in front of the static site, and an
    alias store API over a key-value namespace that maps an alias to the JSON record
    `{data, title, createdAt, views}`.

    The namespace is the map `kv`; its binding may be missing (`bound`). The outcome of a
    namespace call that throws is an input (`Fault`), and so are the clock (`now`) and
    the keys that `list()` reports (`listed`). */
module Worker {
  import opened Wrappers
  import opened Text
  import Notes

  const MASTER_KEY: string := "ToonTamilIndia"
  const UNTITLED: string := "Untitled"
  const API_PREFIX: string := "/api/"
  const SHARE_PATH: string := "/api/share"
  const NOTE_PREFIX: string := "/api/note/"
  const LIST_PATH: string := "/api/list"
  const CHECK_PREFIX: string := "/api/check/"
  const NOT_CONFIGURED: string := "KV namespace not configured. Add SHARED_NOTES binding in Cloudflare Pages settings."
  const MISSING_FIELDS: string := "Missing alias or data"
  const INVALID_ALIAS: string := "Invalid alias. Use 2-50 alphanumeric characters, hyphens, or underscores."
  const NOT_FOUND: string := "Not found"
  const NOTE_NOT_FOUND: string := "Note not found"
  const UNAUTHORIZED: string := "Unauthorized"

  const STATIC_EXTENSIONS: seq<string> := [".html", ".js", ".css", ".json", ".png", ".jpg", ".jpeg", ".gif",
    ".svg", ".ico", ".woff", ".woff2", ".ttf", ".eot", ".map", ".md", ".txt", ".xml", ".webmanifest"]
  const STATIC_PATHS: seq<string> := ["/", "/index.html", "/app.js", "/styles.css", "/view.html", "/manifest.json", "/sw.js"]

  /** A stored record. `views` is `None` where the stored object has no count. */
  datatype NoteRecord = NoteRecord(data: string, title: string, createdAt: string, views: Option<nat>)

  /** A namespace call that throws, with the error's message. */
  datatype Fault = NoFault | ReadFails(message: string) | WriteFails(message: string)

  /** The body of `POST /api/share`: unreadable when `request.json()` throws or the
      destructuring of its result does; otherwise its string fields (absent as `None`). */
  datatype ShareBody = Unreadable(message: string) | Fields(alias: Option<string>, data: Option<string>, title: Option<string>)

  /** What the worker reads from a request: method, path name, the `X-Master-Key`
      header, and the body where one is parsed. */
  datatype Request = Request(verb: string, path: string, masterKey: Option<string>, body: ShareBody)

  /** One element of the `notes` array of `/api/list`. */
  datatype ListEntry = ListEntry(alias: string, title: string, createdAt: string, views: nat)

  /** The JSON bodies the API answers with. */
  datatype Reply =
    | Failure(error: string)
    | Shared(alias: string, url: string)
    | Found(data: string, title: string, createdAt: string, views: nat)
    | Done
    | Listing(notes: seq<ListEntry>)
    | Availability(available: bool, alias: string)

  datatype Response = Response(status: nat, reply: Reply)

  /** An API response and the namespace it leaves behind. */
  datatype ApiResult = ApiResult(response: Response, kv: map<string, NoteRecord>)

  function StartsWith(s: string, p: string): bool {
    |p| <= |s| && s[..|p|] == p
  }

  function EndsWith(s: string, p: string): bool {
    |p| <= |s| && s[|s| - |p|..] == p
  }

  /** `n || 0` for a stored view count. */
  function OrZero(n: Option<nat>): nat {
    if n.Some? then n.value else 0
  }

  /** One character of `[a-zA-Z0-9_-]`. */
  predicate IsServerAliasChar(c: char) {
    IsAsciiAlnum(c) || c == '_' || c == '-'
  }

  predicate AllServerAliasChars(s: string) {
    forall i :: 0 <= i < |s| ==> IsServerAliasChar(s[i])
  }

  /** `/^[a-zA-Z0-9_-]{2,50}$/.test(alias)`. */
  predicate ServerAliasOk(s: string) {
    2 <= |s| <= 50 && AllServerAliasChars(s)
  }

  // ---------------------------------------------------------------- the API routes

  /** `POST /api/share`. */
  function Share(kv: map<string, NoteRecord>, body: ShareBody, fault: Fault, now: string): (r: ApiResult)
    ensures r.kv != kv ==> r.response.status == 200
  {
    match body
    case Unreadable(message) => ApiResult(Response(500, Failure("Failed to save note: " + message)), kv)
    case Fields(alias, data, title) =>
      if alias.None? || alias.value == "" || data.None? || data.value == "" then
        ApiResult(Response(400, Failure(MISSING_FIELDS)), kv)
      else if !ServerAliasOk(alias.value) then
        ApiResult(Response(400, Failure(INVALID_ALIAS)), kv)
      else if fault.WriteFails? then
        ApiResult(Response(500, Failure("Failed to save note: " + fault.message)), kv)
      else
        var record := NoteRecord(data.value, OrDefault(title, UNTITLED), now, Some(0));
        ApiResult(Response(200, Shared(alias.value, "/" + alias.value)), kv[alias.value := record])
  }

  /** `GET /api/note/:alias`: the view count goes up by one; the write of the new count
      is not awaited, so its failure still answers 200. */
  function GetNote(kv: map<string, NoteRecord>, alias: string, fault: Fault): (r: ApiResult)
    ensures r.kv != kv ==> r.response.status == 200
  {
    if fault.ReadFails? then ApiResult(Response(500, Failure("Failed to get note: " + fault.message)), kv)
    else if alias !in kv then ApiResult(Response(404, Failure(NOTE_NOT_FOUND)), kv)
    else
      var record := kv[alias];
      var views := OrZero(record.views) + 1;
      var response := Response(200, Found(record.data, record.title, record.createdAt, views));
      if fault.WriteFails? then ApiResult(response, kv)
      else ApiResult(response, kv[alias := record.(views := Some(views))])
  }

  /** `DELETE /api/note/:alias`. */
  function DeleteNote(kv: map<string, NoteRecord>, alias: string, key: Option<string>, fault: Fault): (r: ApiResult)
    ensures r.kv != kv ==> r.response.status == 200
  {
    if key != Some(MASTER_KEY) then ApiResult(Response(401, Failure(UNAUTHORIZED)), kv)
    else if fault.WriteFails? then ApiResult(Response(500, Failure("Failed to delete: " + fault.message)), kv)
    else ApiResult(Response(200, Done), kv - {alias})
  }

  /** The entries `/api/list` pushes, in the order of `keys`, for the keys that still
      hold a record. */
  function ListEntries(kv: map<string, NoteRecord>, keys: seq<string>): (r: seq<ListEntry>)
    ensures |r| <= |keys|
  {
    if keys == [] then []
    else
      var last := keys[|keys| - 1];
      ListEntries(kv, keys[..|keys| - 1]) +
        if last in kv then [ListEntry(last, kv[last].title, kv[last].createdAt, OrZero(kv[last].views))] else []
  }

  /** `GET /api/list`. */
  function ListNotes(kv: map<string, NoteRecord>, key: Option<string>, listed: seq<string>, fault: Fault): (r: ApiResult)
    ensures r.kv == kv
  {
    if key != Some(MASTER_KEY) then ApiResult(Response(401, Failure(UNAUTHORIZED)), kv)
    else if fault.ReadFails? then ApiResult(Response(500, Failure("Failed to list: " + fault.message)), kv)
    else ApiResult(Response(200, Listing(ListEntries(kv, listed))), kv)
  }

  /** `GET /api/check/:alias`. */
  function CheckAlias(kv: map<string, NoteRecord>, alias: string, fault: Fault): (r: ApiResult)
    ensures r.kv == kv
  {
    if fault.ReadFails? then ApiResult(Response(500, Failure(fault.message)), kv)
    else ApiResult(Response(200, Availability(alias !in kv, alias)), kv)
  }

  /** `handleAPI(request, env, path)`: the first route whose path and method match. */
  function Api(bound: bool, kv: map<string, NoteRecord>, req: Request, listed: seq<string>, fault: Fault, now: string): (r: ApiResult)
    ensures r.kv != kv ==> r.response.status == 200
  {
    if !bound then ApiResult(Response(500, Failure(NOT_CONFIGURED)), kv)
    else if req.path == SHARE_PATH && req.verb == "POST" then Share(kv, req.body, fault, now)
    else if StartsWith(req.path, NOTE_PREFIX) && req.verb == "GET" then GetNote(kv, req.path[|NOTE_PREFIX|..], fault)
    else if StartsWith(req.path, NOTE_PREFIX) && req.verb == "DELETE" then DeleteNote(kv, req.path[|NOTE_PREFIX|..], req.masterKey, fault)
    else if req.path == LIST_PATH && req.verb == "GET" then ListNotes(kv, req.masterKey, listed, fault)
    else if StartsWith(req.path, CHECK_PREFIX) && req.verb == "GET" then CheckAlias(kv, req.path[|CHECK_PREFIX|..], fault)
    else ApiResult(Response(404, Failure(NOT_FOUND)), kv)
  }

  // ---------------------------------------------------------------- the router

  /** `path.toLowerCase().endsWith(ext)` for some static extension, or a static path. */
  predicate IsStatic(path: string) {
    (exists i :: 0 <= i < |STATIC_EXTENSIONS| && EndsWith(ToLower(path), STATIC_EXTENSIONS[i])) ||
    path in STATIC_PATHS
  }

  /** The capture of `/^\/([a-zA-Z0-9_-]+)\/?$/`. */
  function AliasFromPath(path: string): (r: Option<string>)
    ensures r.Some? ==>
      r.value != [] && AllServerAliasChars(r.value) && (path == "/" + r.value || path == "/" + r.value + "/")
  {
    if |path| >= 2 && path[0] == '/' then
      var name := if path[|path| - 1] == '/' then path[1..|path| - 1] else path[1..];
      if name != [] && AllServerAliasChars(name) then Some(name) else None
    else None
  }

  /** Where `fetch` sends a request. */
  datatype Route = Preflight | ToApi | ServeAsset | ToViewer(alias: string)

  function RouteOf(verb: string, path: string): (r: Route)
    ensures r.Preflight? <==> verb == "OPTIONS"
    ensures r.ToApi? <==> verb != "OPTIONS" && StartsWith(path, API_PREFIX)
    ensures r.ToViewer? ==>
      verb != "OPTIONS" && !StartsWith(path, API_PREFIX) && !IsStatic(path) && path in {"/" + r.alias, "/" + r.alias + "/"}
  {
    if verb == "OPTIONS" then Preflight
    else if StartsWith(path, API_PREFIX) then ToApi
    else if IsStatic(path) then ServeAsset
    else match AliasFromPath(path)
      case Some(alias) => ToViewer(alias)
      case None => ServeAsset
  }

  /** What `fetch` answers: the CORS preflight, an API response, the asset at the
      request's own path, the viewer page `/view.html?alias=<alias>`, or an exception
      that escapes the handler. */
  datatype Outcome = CorsPreflight | ApiResponse(response: Response) | Asset | Viewer(alias: string) | Thrown

  /** `fetch(request, env)` and the namespace after it. The alias rewrite reads the
      namespace outside any `try`, and does the same whatever it reads. */
  function Serve(bound: bool, kv: map<string, NoteRecord>, req: Request, listed: seq<string>, fault: Fault, now: string): (r: (Outcome, map<string, NoteRecord>))
    ensures r.1 != kv ==> StartsWith(req.path, API_PREFIX) && r.0.ApiResponse? && r.0.response.status == 200
    ensures r.0.Thrown? ==> bound && fault.ReadFails? && !StartsWith(req.path, API_PREFIX)
  {
    match RouteOf(req.verb, req.path)
    case Preflight => (CorsPreflight, kv)
    case ToApi =>
      var r := Api(bound, kv, req, listed, fault, now);
      (ApiResponse(r.response), r.kv)
    case ServeAsset => (Asset, kv)
    case ToViewer(alias) => (if bound && fault.ReadFails? then Thrown else Viewer(alias), kv)
  }

  // ---------------------------------------------------------------- the worker

  class AliasStore {
    var kv: map<string, NoteRecord>
    const bound: bool

    constructor(bound: bool, kv: map<string, NoteRecord>)
      ensures this.bound == bound && this.kv == kv
    {
      this.bound := bound;
      this.kv := kv;
    }

    /** `handleAPI`, with each namespace write applied to `kv`. */
    method HandleApi(req: Request, listed: seq<string>, fault: Fault, now: string) returns (resp: Response)
      modifies this
      ensures ApiResult(resp, kv) == Api(bound, old(kv), req, listed, fault, now)
    {
      if !bound {
        return Response(500, Failure(NOT_CONFIGURED));
      }
      if req.path == SHARE_PATH && req.verb == "POST" {
        if req.body.Unreadable? {
          return Response(500, Failure("Failed to save note: " + req.body.message));
        }
        var alias, data, title := req.body.alias, req.body.data, req.body.title;
        if alias.None? || alias.value == "" || data.None? || data.value == "" {
          return Response(400, Failure(MISSING_FIELDS));
        }
        if !ServerAliasOk(alias.value) {
          return Response(400, Failure(INVALID_ALIAS));
        }
        if fault.WriteFails? {
          return Response(500, Failure("Failed to save note: " + fault.message));
        }
        kv := kv[alias.value := NoteRecord(data.value, OrDefault(title, UNTITLED), now, Some(0))];
        return Response(200, Shared(alias.value, "/" + alias.value));
      }
      if StartsWith(req.path, NOTE_PREFIX) && req.verb == "GET" {
        var alias := req.path[|NOTE_PREFIX|..];
        if fault.ReadFails? {
          return Response(500, Failure("Failed to get note: " + fault.message));
        }
        if alias !in kv {
          return Response(404, Failure(NOTE_NOT_FOUND));
        }
        var record := kv[alias];
        record := record.(views := Some(OrZero(record.views) + 1));
        if !fault.WriteFails? {
          kv := kv[alias := record];
        }
        return Response(200, Found(record.data, record.title, record.createdAt, record.views.value));
      }
      if StartsWith(req.path, NOTE_PREFIX) && req.verb == "DELETE" {
        var alias := req.path[|NOTE_PREFIX|..];
        if req.masterKey != Some(MASTER_KEY) {
          return Response(401, Failure(UNAUTHORIZED));
        }
        if fault.WriteFails? {
          return Response(500, Failure("Failed to delete: " + fault.message));
        }
        kv := kv - {alias};
        return Response(200, Done);
      }
      if req.path == LIST_PATH && req.verb == "GET" {
        if req.masterKey != Some(MASTER_KEY) {
          return Response(401, Failure(UNAUTHORIZED));
        }
        if fault.ReadFails? {
          return Response(500, Failure("Failed to list: " + fault.message));
        }
        var notes := CollectEntries(listed);
        return Response(200, Listing(notes));
      }
      if StartsWith(req.path, CHECK_PREFIX) && req.verb == "GET" {
        var alias := req.path[|CHECK_PREFIX|..];
        if fault.ReadFails? {
          return Response(500, Failure(fault.message));
        }
        return Response(200, Availability(alias !in kv, alias));
      }
      return Response(404, Failure(NOT_FOUND));
    }

    /** The `for` loop of `/api/list`: one entry pushed per listed key that holds a record. */
    method CollectEntries(keys: seq<string>) returns (notes: seq<ListEntry>)
      ensures notes == ListEntries(kv, keys)
    {
      notes := [];
      for i := 0 to |keys|
        invariant notes == ListEntries(kv, keys[..i])
      {
        assert keys[..i + 1][..i] == keys[..i];
        var name := keys[i];
        if name in kv {
          var note := kv[name];
          notes := notes + [ListEntry(name, note.title, note.createdAt, OrZero(note.views))];
        }
      }
      assert keys[..|keys|] == keys;
    }

    /** `fetch(request, env)`. */
    method Fetch(req: Request, listed: seq<string>, fault: Fault, now: string) returns (out: Outcome)
      modifies this
      ensures (out, kv) == Serve(bound, old(kv), req, listed, fault, now)
    {
      if req.verb == "OPTIONS" {
        return CorsPreflight;
      }
      if StartsWith(req.path, API_PREFIX) {
        var resp := HandleApi(req, listed, fault, now);
        return ApiResponse(resp);
      }
      if IsStatic(req.path) {
        return Asset;
      }
      var alias := AliasFromPath(req.path);
      if alias.Some? {
        if bound && fault.ReadFails? {
          return Thrown;
        }
        return Viewer(alias.value);
      }
      return Asset;
    }
  }

  // ---------------------------------------------------------------- the API's promises

  /** Without the namespace binding every API request fails with 500 and writes nothing. */
  lemma UnboundFails(kv: map<string, NoteRecord>, req: Request, listed: seq<string>, fault: Fault, now: string)
    ensures Api(false, kv, req, listed, fault, now) == ApiResult(Response(500, Failure(NOT_CONFIGURED)), kv)
  {
  }

  /** A share without an alias or without data is refused with 400 and writes nothing. */
  lemma ShareNeedsFields(kv: map<string, NoteRecord>, key: Option<string>, alias: Option<string>, data: Option<string>,
                         title: Option<string>, listed: seq<string>, fault: Fault, now: string)
    requires alias.None? || alias.value == "" || data.None? || data.value == ""
    ensures Api(true, kv, Request("POST", SHARE_PATH, key, Fields(alias, data, title)), listed, fault, now) ==
      ApiResult(Response(400, Failure(MISSING_FIELDS)), kv)
  {
  }

  /** A share whose alias is not 2 to 50 characters of `[a-zA-Z0-9_-]` is refused with 400
      and writes nothing. */
  lemma ShareChecksPattern(kv: map<string, NoteRecord>, key: Option<string>, alias: string, data: string,
                           title: Option<string>, listed: seq<string>, fault: Fault, now: string)
    requires alias != "" && data != "" && !ServerAliasOk(alias)
    ensures Api(true, kv, Request("POST", SHARE_PATH, key, Fields(Some(alias), Some(data), title)), listed, fault, now) ==
      ApiResult(Response(400, Failure(INVALID_ALIAS)), kv)
  {
  }

  /** The pattern takes upper case and `_`, takes two characters and refuses one. */
  lemma ServerAliasExamples()
    ensures ServerAliasOk("ab") && ServerAliasOk("AB_-9") && !ServerAliasOk("a")
  {
    assert AllServerAliasChars("AB_-9") by {
      forall i | 0 <= i < 5
        ensures IsServerAliasChar("AB_-9"[i])
      {
      }
    }
  }

  /** Every alias the editor makes (lower-case letters, digits and `-`) of 2 to 50
      characters passes the server's pattern; the server also takes aliases the editor
      never makes. */
  lemma ClientAliasesPassServerCheck(s: string)
    requires Notes.IsAlias(s) && 2 <= |s| <= 50
    ensures ServerAliasOk(s)
    ensures ServerAliasOk("AB") && !Notes.IsAlias("AB")
  {
    assert !Notes.IsAliasChar("AB"[0]);
  }

  /** A valid share overwrites whatever the key held with the new record, its view count
      at zero, and answers with the short path. */
  lemma ShareOverwrites(kv: map<string, NoteRecord>, key: Option<string>, alias: string, data: string,
                        title: Option<string>, listed: seq<string>, fault: Fault, now: string)
    requires data != "" && ServerAliasOk(alias) && !fault.WriteFails?
    ensures var r := Api(true, kv, Request("POST", SHARE_PATH, key, Fields(Some(alias), Some(data), title)), listed, fault, now);
      r.response == Response(200, Shared(alias, "/" + alias)) &&
      r.kv == kv[alias := NoteRecord(data, OrDefault(title, UNTITLED), now, Some(0))]
  {
  }

  /** The path of `GET`/`DELETE /api/note/<alias>` names exactly that alias. */
  lemma NotePath(alias: string)
    ensures StartsWith(NOTE_PREFIX + alias, NOTE_PREFIX) && (NOTE_PREFIX + alias)[|NOTE_PREFIX|..] == alias
    ensures NOTE_PREFIX + alias != SHARE_PATH && NOTE_PREFIX + alias != LIST_PATH
  {
    var path := NOTE_PREFIX + alias;
    assert path[..|NOTE_PREFIX|] == NOTE_PREFIX;
    assert path[5] == 'n';
  }

  /** What was shared is read back: data, title (or "Untitled"), the share time and a
      first view, which is also stored. */
  lemma SharedNoteReadsBack(kv: map<string, NoteRecord>, key: Option<string>, alias: string, data: string,
                            title: Option<string>, listed: seq<string>, now: string, later: string)
    requires data != "" && ServerAliasOk(alias)
    ensures var shared := Api(true, kv, Request("POST", SHARE_PATH, key, Fields(Some(alias), Some(data), title)), listed, NoFault, now);
      var read := Api(true, shared.kv, Request("GET", NOTE_PREFIX + alias, key, Unreadable("")), listed, NoFault, later);
      read.response == Response(200, Found(data, OrDefault(title, UNTITLED), now, 1)) &&
      read.kv == kv[alias := NoteRecord(data, OrDefault(title, UNTITLED), now, Some(1))]
  {
    NotePath(alias);
  }

  /** Reading an absent alias answers 404 and writes nothing. */
  lemma GetAbsent(kv: map<string, NoteRecord>, key: Option<string>, alias: string, body: ShareBody,
                  listed: seq<string>, fault: Fault, now: string)
    requires alias !in kv && !fault.ReadFails?
    ensures Api(true, kv, Request("GET", NOTE_PREFIX + alias, key, body), listed, fault, now) ==
      ApiResult(Response(404, Failure(NOTE_NOT_FOUND)), kv)
  {
    NotePath(alias);
  }

  /** Reading a stored alias answers with the record and a view count one higher than
      the stored one (absent counts as zero), and stores that count unless the write
      fails. */
  lemma GetCountsView(kv: map<string, NoteRecord>, key: Option<string>, alias: string, body: ShareBody,
                      listed: seq<string>, fault: Fault, now: string)
    requires alias in kv && !fault.ReadFails?
    ensures var r := Api(true, kv, Request("GET", NOTE_PREFIX + alias, key, body), listed, fault, now);
      var n := OrZero(kv[alias].views) + 1;
      r.response == Response(200, Found(kv[alias].data, kv[alias].title, kv[alias].createdAt, n)) &&
      r.kv == if fault.WriteFails? then kv else kv[alias := kv[alias].(views := Some(n))]
  {
    NotePath(alias);
  }

  /** View counts are not monotonic: sharing again under a viewed alias resets its count. */
  lemma ShareResetsViews(kv: map<string, NoteRecord>, key: Option<string>, alias: string, data: string,
                         title: Option<string>, listed: seq<string>, now: string)
    requires data != "" && ServerAliasOk(alias) && alias in kv && OrZero(kv[alias].views) > 0
    ensures var r := Api(true, kv, Request("POST", SHARE_PATH, key, Fields(Some(alias), Some(data), title)), listed, NoFault, now);
      alias in r.kv && OrZero(r.kv[alias].views) < OrZero(kv[alias].views)
  {
  }

  /** Deleting without the master key answers 401 and writes nothing. */
  lemma DeleteNeedsKey(kv: map<string, NoteRecord>, key: Option<string>, alias: string, body: ShareBody,
                       listed: seq<string>, fault: Fault, now: string)
    requires key != Some(MASTER_KEY)
    ensures Api(true, kv, Request("DELETE", NOTE_PREFIX + alias, key, body), listed, fault, now) ==
      ApiResult(Response(401, Failure(UNAUTHORIZED)), kv)
  {
    NotePath(alias);
  }

  /** With the master key the alias is removed, and the answer is 200 whether or not it
      was stored. */
  lemma DeleteRemoves(kv: map<string, NoteRecord>, alias: string, body: ShareBody,
                      listed: seq<string>, fault: Fault, now: string)
    requires !fault.WriteFails?
    ensures var r := Api(true, kv, Request("DELETE", NOTE_PREFIX + alias, Some(MASTER_KEY), body), listed, fault, now);
      r.response == Response(200, Done) && r.kv == kv - {alias} && alias !in r.kv
  {
    NotePath(alias);
  }

  /** Listing without the master key answers 401; with it, the entries of the listed keys. */
  lemma ListNeedsKey(kv: map<string, NoteRecord>, key: Option<string>, body: ShareBody,
                     listed: seq<string>, fault: Fault, now: string)
    ensures var r := Api(true, kv, Request("GET", LIST_PATH, key, body), listed, fault, now);
      r.kv == kv &&
      (key != Some(MASTER_KEY) ==> r.response == Response(401, Failure(UNAUTHORIZED))) &&
      (key == Some(MASTER_KEY) && !fault.ReadFails? ==> r.response == Response(200, Listing(ListEntries(kv, listed))))
  {
    assert LIST_PATH != SHARE_PATH by { assert LIST_PATH[5] != SHARE_PATH[5]; }
    assert !StartsWith(LIST_PATH, NOTE_PREFIX) by { assert LIST_PATH[5] != NOTE_PREFIX[5]; }
  }

  /** Every entry of the list is a listed key that holds a record, with that record's
      title, creation time and view count (absent as zero). */
  lemma {:induction false} ListEntriesSound(kv: map<string, NoteRecord>, keys: seq<string>)
    ensures forall e :: e in ListEntries(kv, keys) ==>
      e.alias in keys && e.alias in kv &&
      e == ListEntry(e.alias, kv[e.alias].title, kv[e.alias].createdAt, OrZero(kv[e.alias].views))
  {
    if keys != [] {
      var front := keys[..|keys| - 1];
      ListEntriesSound(kv, front);
      forall e | e in ListEntries(kv, front)
        ensures e.alias in keys
      {
        var j :| 0 <= j < |front| && front[j] == e.alias;
        assert keys[j] == e.alias;
      }
    }
  }

  /** Every listed key that holds a record has its entry in the list. */
  lemma {:induction false} ListEntriesComplete(kv: map<string, NoteRecord>, keys: seq<string>, k: string)
    requires k in keys && k in kv
    ensures ListEntry(k, kv[k].title, kv[k].createdAt, OrZero(kv[k].views)) in ListEntries(kv, keys)
  {
    var front := keys[..|keys| - 1];
    if keys[|keys| - 1] != k {
      var j :| 0 <= j < |keys| && keys[j] == k;
      assert front[j] == k;
      ListEntriesComplete(kv, front, k);
    }
  }

  /** When every listed key holds a record, the list has one entry per listed key. */
  lemma {:induction false} ListEntriesLength(kv: map<string, NoteRecord>, keys: seq<string>)
    requires forall i :: 0 <= i < |keys| ==> keys[i] in kv
    ensures |ListEntries(kv, keys)| == |keys|
  {
    if keys != [] {
      ListEntriesLength(kv, keys[..|keys| - 1]);
    }
  }

  /** The availability check reports `available` exactly when nothing is stored under
      the alias. */
  lemma CheckReportsAbsence(kv: map<string, NoteRecord>, key: Option<string>, alias: string, body: ShareBody,
                            listed: seq<string>, fault: Fault, now: string)
    requires !fault.ReadFails?
    ensures var r := Api(true, kv, Request("GET", CHECK_PREFIX + alias, key, body), listed, fault, now);
      r.kv == kv && r.response == Response(200, Availability(alias !in kv, alias))
  {
    var path := CHECK_PREFIX + alias;
    assert path[..|CHECK_PREFIX|] == CHECK_PREFIX && path[|CHECK_PREFIX|..] == alias;
    assert path[5] == 'c';
  }

  /** A namespace call that throws is answered with 500 and the error's message behind
      the route's own prefix (none for the availability check), and nothing is written:
      an unreadable share body, a failed write of a share or a delete, a failed read of a
      note, of the list or of an availability check. */
  lemma FaultsAnswer500(kv: map<string, NoteRecord>, key: Option<string>, alias: string, data: string,
                        title: Option<string>, body: ShareBody, listed: seq<string>, message: string, now: string)
    ensures Api(true, kv, Request("POST", SHARE_PATH, key, Unreadable(message)), listed, NoFault, now) ==
      ApiResult(Response(500, Failure("Failed to save note: " + message)), kv)
    ensures data != "" && ServerAliasOk(alias) ==>
      Api(true, kv, Request("POST", SHARE_PATH, key, Fields(Some(alias), Some(data), title)), listed, WriteFails(message), now) ==
        ApiResult(Response(500, Failure("Failed to save note: " + message)), kv)
    ensures Api(true, kv, Request("GET", NOTE_PREFIX + alias, key, body), listed, ReadFails(message), now) ==
      ApiResult(Response(500, Failure("Failed to get note: " + message)), kv)
    ensures Api(true, kv, Request("DELETE", NOTE_PREFIX + alias, Some(MASTER_KEY), body), listed, WriteFails(message), now) ==
      ApiResult(Response(500, Failure("Failed to delete: " + message)), kv)
    ensures Api(true, kv, Request("GET", LIST_PATH, Some(MASTER_KEY), body), listed, ReadFails(message), now) ==
      ApiResult(Response(500, Failure("Failed to list: " + message)), kv)
    ensures Api(true, kv, Request("GET", CHECK_PREFIX + alias, key, body), listed, ReadFails(message), now) ==
      ApiResult(Response(500, Failure(message)), kv)
  {
    NotePath(alias);
    assert LIST_PATH != SHARE_PATH by { assert LIST_PATH[5] != SHARE_PATH[5]; }
    assert !StartsWith(LIST_PATH, NOTE_PREFIX) by { assert LIST_PATH[5] != NOTE_PREFIX[5]; }
    var path := CHECK_PREFIX + alias;
    assert path[..|CHECK_PREFIX|] == CHECK_PREFIX && path[|CHECK_PREFIX|..] == alias;
    assert path[5] == 'c';
  }

  /** A method and path no route matches answers 404 and writes nothing. */
  lemma UnmatchedIsNotFound(kv: map<string, NoteRecord>, req: Request, listed: seq<string>, fault: Fault, now: string)
    requires !(req.path == SHARE_PATH && req.verb == "POST")
    requires !(StartsWith(req.path, NOTE_PREFIX) && (req.verb == "GET" || req.verb == "DELETE"))
    requires !(req.path == LIST_PATH && req.verb == "GET")
    requires !(StartsWith(req.path, CHECK_PREFIX) && req.verb == "GET")
    ensures Api(true, kv, req, listed, fault, now) == ApiResult(Response(404, Failure(NOT_FOUND)), kv)
  {
  }

  // ---------------------------------------------------------------- the router's promises

  /** Every `OPTIONS` request is answered by the preflight, whatever its path. */
  lemma OptionsIsPreflight(bound: bool, kv: map<string, NoteRecord>, req: Request, listed: seq<string>, fault: Fault, now: string)
    requires req.verb == "OPTIONS"
    ensures Serve(bound, kv, req, listed, fault, now) == (CorsPreflight, kv)
  {
  }

  /** Any other request under `/api/` is the API's. */
  lemma ApiPathsReachApi(bound: bool, kv: map<string, NoteRecord>, req: Request, listed: seq<string>, fault: Fault, now: string)
    requires req.verb != "OPTIONS" && StartsWith(req.path, API_PREFIX)
    ensures var r := Api(bound, kv, req, listed, fault, now);
      Serve(bound, kv, req, listed, fault, now) == (ApiResponse(r.response), r.kv)
  {
  }

  /** `/<alias>` and `/<alias>/` capture the alias. */
  lemma AliasPathParses(a: string)
    requires a != [] && AllServerAliasChars(a)
    ensures AliasFromPath("/" + a) == Some(a)
    ensures AliasFromPath("/" + a + "/") == Some(a)
  {
    var p, q := "/" + a, "/" + a + "/";
    assert p[1..] == a && p[|p| - 1] == a[|a| - 1];
    assert q[1..|q| - 1] == a;
  }

  /** Lower-casing brings no `.` into a string. */
  lemma {:induction false} LowerKeepsNoDot(s: string)
    requires forall i :: 0 <= i < |s| ==> s[i] != '.'
    ensures forall i :: 0 <= i < |ToLower(s)| ==> ToLower(s)[i] != '.'
    decreases |s|
  {
    if s != [] {
      LowerKeepsNoDot(s[1..]);
      var head := LowerChar(s[0]);
      assert forall i :: 0 <= i < |head| ==> head[i] != '.';
    }
  }

  /** A string without `.` does not end in a suffix that starts with `.`. */
  lemma DotlessHasNoDotSuffix(t: string, ext: string)
    requires forall i :: 0 <= i < |t| ==> t[i] != '.'
    requires ext != [] && ext[0] == '.'
    ensures !EndsWith(t, ext)
  {
    if |ext| <= |t| {
      assert t[|t| - |ext|..][0] == t[|t| - |ext|] != '.';
    }
  }

  /** A path without `.` other than `/` is not static. */
  lemma DotlessIsNotStatic(path: string)
    requires |path| >= 2 && forall i :: 0 <= i < |path| ==> path[i] != '.'
    ensures !IsStatic(path)
  {
    NoStaticExtension(path);
    NotAStaticPath(path);
  }

  /** Every static extension begins with its `.`. */
  lemma ExtensionsStartWithDot()
    ensures forall i :: 0 <= i < |STATIC_EXTENSIONS| ==> STATIC_EXTENSIONS[i] != [] && STATIC_EXTENSIONS[i][0] == '.'
  {
  }

  /** Every static extension begins with `.`, so a dotless path ends in none of them. */
  lemma NoStaticExtension(path: string)
    requires forall i :: 0 <= i < |path| ==> path[i] != '.'
    ensures forall i :: 0 <= i < |STATIC_EXTENSIONS| ==> !EndsWith(ToLower(path), STATIC_EXTENSIONS[i])
  {
    var lower := ToLower(path);
    LowerKeepsNoDot(path);
    ExtensionsStartWithDot();
    forall i | 0 <= i < |STATIC_EXTENSIONS|
      ensures !EndsWith(lower, STATIC_EXTENSIONS[i])
    {
      DotlessHasNoDotSuffix(lower, STATIC_EXTENSIONS[i]);
    }
  }

  /** Every static path but `/` contains a `.`. */
  lemma NotAStaticPath(path: string)
    requires |path| >= 2 && forall i :: 0 <= i < |path| ==> path[i] != '.'
    ensures path !in STATIC_PATHS
  {
    forall i | 0 <= i < |STATIC_PATHS|
      ensures STATIC_PATHS[i] != path
    {
      var dot := [0, 6, 4, 7, 5, 9, 3][i];
      if i > 0 {
        assert STATIC_PATHS[i][dot] == '.';
      }
    }
  }

  /** The short link `/<alias>` of any alias the pattern's characters can spell is
      rewritten to the viewer, for every method but `OPTIONS`. */
  lemma AliasPathReachesViewer(verb: string, a: string)
    requires verb != "OPTIONS" && a != [] && AllServerAliasChars(a)
    ensures RouteOf(verb, "/" + a) == ToViewer(a)
  {
    var path := "/" + a;
    assert !StartsWith(path, API_PREFIX) by {
      if |path| >= 5 {
        assert path[..5][4] == a[3] != '/';
      }
    }
    forall i | 0 <= i < |path|
      ensures path[i] != '.'
    {
      if i > 0 {
        assert path[i] == a[i - 1];
      }
    }
    DotlessIsNotStatic(path);
    AliasPathParses(a);
  }

  /** The short link the editor builds for a normalised alias reaches the viewer. */
  lemma ClientShortLinkReachesViewer(a: string)
    requires a != "" && Notes.IsAlias(a)
    ensures RouteOf("GET", "/" + a) == ToViewer(a)
  {
    AliasPathReachesViewer("GET", a);
  }

  /** The rewrite to the viewer does not depend on what the namespace holds: a stored and
      an absent alias get the same page. */
  lemma ViewerIgnoresStore(bound: bool, kv1: map<string, NoteRecord>, kv2: map<string, NoteRecord>, req: Request,
                           listed: seq<string>, fault: Fault, now: string)
    requires RouteOf(req.verb, req.path).ToViewer? && !fault.ReadFails?
    ensures Serve(bound, kv1, req, listed, fault, now).0 == Serve(bound, kv2, req, listed, fault, now).0 ==
      Viewer(RouteOf(req.verb, req.path).alias)
  {
  }
}
