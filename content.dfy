/**
 * ContentServlet: serving a file out of a bundle jar. The request path is walked '/' by '/';
 * the first candidate key that is a permanent redirect, a temporary redirect (alias), or a jar
 * holding the named entry decides the response. The Last-Modified lookup makes the same walk
 * over the jars alone.
 */
module Content {
  import opened Wrappers
  import opened JavaStrings
  import opened Listener
  import opened Resolve

  /** Integer.MAX_VALUE: an entry size must be below it to be sent as the Content-Length. */
  const IntMax: int := 0x7fff_ffff

  /** What the servlet sends back. */
  datatype Response =
    | MovedPermanently(location: string)
    | MovedTemporarily(location: string)
    | Served(jar: string, fileName: string, contentType: Option<string>, contentLength: Option<int>,
             cacheControl: Option<string>, body: Bytes)
    | NotFound
    | ServerError(exception: string)

  /** The Content-Length header: sent only for a positive size that fits an int. */
  function ContentLength(size: int): (n: Option<int>)
    ensures n.Some? <==> 0 < size < IntMax
    ensures n.Some? ==> n.value == size
  {
    if size > 0 && size < IntMax then Some(size) else None
  }

  /** The parameter naming a cache policy for a mime type, or for every subtype of a major type. */
  function MimeKey(mime: string): string {
    "cache-control.mime." + mime
  }

  /**
   * The cache-control lookup as written: the exact mime type, then its major type with any subtype, then
   * the default. When the exact key is unset and the type is null, the major-type step dereferences
   * null and the request fails.
   */
  function CacheControlAsWritten(params: map<string, string>, mime: Option<string>): (r: Result<Option<string>, string>)
  {
    var exact := Get(params, MimeKey(JavaText(mime)));
    if exact.Some? then Success(exact)
    else if mime.None? then Failure("NullPointerException")
    else
      var slash := IndexOf(mime.value, '/', 0);
      var major := if slash != -1 then Get(params, MimeKey(mime.value[..slash] + "/*")) else None;
      if major.Some? then Success(major) else Success(Get(params, "cache-control.default"))
  }

  /** The cache-control lookup as intended: a null type has no major type and goes to the default. */
  function CacheControl(params: map<string, string>, mime: Option<string>): (r: Option<string>)
    ensures r.Some? ==> r.value in params.Values
    ensures r.None? <==>
      && MimeKey(JavaText(mime)) !in params
      && "cache-control.default" !in params
      && (mime.None? || IndexOf(mime.value, '/', 0) == -1
          || MimeKey(mime.value[..IndexOf(mime.value, '/', 0)] + "/*") !in params)
  {
    var exact := Get(params, MimeKey(JavaText(mime)));
    if exact.Some? then exact
    else
      var slash := if mime.None? then -1 else IndexOf(mime.value, '/', 0);
      var major := if slash != -1 then Get(params, MimeKey(mime.value[..slash] + "/*")) else None;
      if major.Some? then major else Get(params, "cache-control.default")
  }

  /** The lookup as written fails exactly for a null type with no "cache-control.mime.null" set ... */
  lemma CacheControlAsWrittenFails(params: map<string, string>, mime: Option<string>)
    ensures CacheControlAsWritten(params, mime).Failure? <==> mime.None? && MimeKey("null") !in params
    ensures CacheControlAsWritten(params, mime).Success? ==> CacheControlAsWritten(params, mime).value == CacheControl(params, mime)
  {
  }

  /** ... such as a file whose type the container does not know, with no cache settings at all. */
  lemma UnknownTypeFails()
    ensures CacheControlAsWritten(map[], None) == Failure("NullPointerException")
    ensures CacheControl(map[], None) == None
  {
  }

  /** The more specific setting wins: the exact type before the major type before the default. */
  lemma CacheControlPrecedence(params: map<string, string>, major: string, minor: string)
    requires '/' !in major
    ensures var mime := major + "/" + minor;
      && (MimeKey(mime) in params ==> CacheControl(params, Some(mime)) == Some(params[MimeKey(mime)]))
      && (MimeKey(mime) !in params && MimeKey(major + "/*") in params ==>
            CacheControl(params, Some(mime)) == Some(params[MimeKey(major + "/*")]))
      && (MimeKey(mime) !in params && MimeKey(major + "/*") !in params ==>
            CacheControl(params, Some(mime)) == Get(params, "cache-control.default"))
  {
    var mime := major + "/" + minor;
    assert mime[|major|] == '/';
    assert forall j :: 0 <= j < |major| ==> mime[j] == major[j];
    assert mime[..|major|] == major;
  }

  /**
   * The lookup statement by statement, as written: a null type that misses the exact key throws
   * where its major type is taken; any other type gets the intended policy.
   */
  method LookupCacheControl(params: map<string, string>, mime: Option<string>) returns (cacheControl: Result<Option<string>, string>)
    ensures cacheControl.Failure? <==> mime.None? && MimeKey("null") !in params
    ensures cacheControl.Failure? ==> cacheControl.error == "NullPointerException"
    ensures cacheControl.Success? ==> cacheControl.value == CacheControl(params, mime)
  {
    var policy := Get(params, MimeKey(JavaText(mime)));
    if policy.None? {
      if mime.None? {
        return Failure("NullPointerException");
      }
      var slash := IndexOf(mime.value, '/', 0);
      if slash != -1 {
        policy := Get(params, MimeKey(mime.value[..slash] + "/*"));
      }
    }
    if policy.None? {
      policy := Get(params, "cache-control.default");
    }
    return Success(policy);
  }

  /**
   * The entry served for a candidate that resolves, with its headers; or the server error the
   * cache-control lookup throws for a file of unknown type whose exact key is unset.
   */
  function ServedAt(reg: Registry, jars: map<string, Archive>, mimeOf: string -> Option<string>, path: string, i: nat): (r: Response)
    requires i < |path| && path[i] == '/' && Resolves(reg.bundles, jars, path, i)
    ensures r.Served? || r == ServerError("NullPointerException")
    ensures r.ServerError? <==> mimeOf(FileNameAt(path, i)).None? && MimeKey("null") !in reg.params
    ensures r.Served? ==> r.jar == JarPath(ArchiveKey(reg.bundles, CandidateKey(path, i))) && r.fileName == FileNameAt(path, i)
    ensures r.Served? ==> r.contentType == mimeOf(r.fileName) && r.body == jars[r.jar].entries[r.fileName].data
    ensures r.Served? ==> r.contentLength == ContentLength(jars[r.jar].entries[r.fileName].size)
    ensures r.Served? ==> var cc := CacheControl(reg.params, r.contentType);
      && (IsNotBlank(cc) ==> r.cacheControl == cc)
      && (!IsNotBlank(cc) ==> r.cacheControl == None)
  {
    var jar := JarPath(ArchiveKey(reg.bundles, CandidateKey(path, i)));
    var fileName := FileNameAt(path, i);
    var entry := jars[jar].entries[fileName];
    CacheControlAsWrittenFails(reg.params, mimeOf(fileName));
    match CacheControlAsWritten(reg.params, mimeOf(fileName))
    case Failure(e) => ServerError(e)
    case Success(cc) => Served(jar, fileName, mimeOf(fileName), ContentLength(entry.size), if IsNotBlank(cc) then cc else None, entry.data)
  }

  /** Both tables and the jars, at every '/' but the leading one (there is no bundle with an empty name). */
  const Everything: Checks := Checks(true, true)

  /** The response to a GET: the decision of the first candidate that settles it, or 404. */
  function ContentResponse(req: Request, reg: Registry, jars: map<string, Archive>, mimeOf: string -> Option<string>): (r: Response)
    ensures var path := StripPluginsRoot(RequestPath(req));
      r.NotFound? <==> forall j :: 1 <= j < |path| && path[j] == '/' ==> !Decisive(reg, jars, path, j, Everything)
  {
    var path := StripPluginsRoot(RequestPath(req));
    var i := FirstCandidate(reg, jars, path, 1, Everything);
    if i == -1 then NotFound
    else
      var key := CandidateKey(path, i);
      if key in reg.redirects then MovedPermanently(Location(req, reg.redirects[key], path, i))
      else if key in reg.aliases then MovedTemporarily(Location(req, reg.aliases[key], path, i))
      else ServedAt(reg, jars, mimeOf, path, i)
  }

  /**
   * doGet: strip /PLUGINS_ROOT/, then try each '/' after the first character in turn: permanent
   * redirect, temporary redirect, then the jar and its entry; 404 when no candidate settles it.
   */
  method DoGet(req: Request, reg: Registry, jars: map<string, Archive>, mimeOf: string -> Option<string>)
    returns (resp: Response)
    ensures resp == ContentResponse(req, reg, jars, mimeOf)
  {
    var path := StrippedPath(req);
    var index := IndexOf(path, '/', 0);
    while index != -1
      invariant index == -1 || (0 <= index < |path| && path[index] == '/')
      invariant forall j :: 1 <= j < |path| && (index == -1 || j < index) && path[j] == '/' ==> !Decisive(reg, jars, path, j, Everything)
      decreases if index < 0 then 0 else |path| + 1 - index
    {
      if index == 0 {
        index := IndexOf(path, '/', index + 1);
        continue;
      }
      var decided := TryCandidate(req, reg, jars, mimeOf, path, index);
      if decided.None? {
        index := IndexOf(path, '/', index + 1);
        continue;
      }
      return decided.value;
    }
    resp := NotFound;
  }

  /** One turn of the loop: the redirect tables, then the jar entry; None to go on to the next '/'. */
  method TryCandidate(req: Request, reg: Registry, jars: map<string, Archive>, mimeOf: string -> Option<string>, path: string, index: nat)
    returns (decided: Option<Response>)
    requires path == StripPluginsRoot(RequestPath(req))
    requires 1 <= index < |path| && path[index] == '/'
    requires forall j :: 1 <= j < index && path[j] == '/' ==> !Decisive(reg, jars, path, j, Everything)
    ensures decided.None? <==> !Decisive(reg, jars, path, index, Everything)
    ensures decided.Some? ==> decided.value == ContentResponse(req, reg, jars, mimeOf)
  {
    var key := KeyAt(path, index);
    if key in reg.redirects {
      ContentOutcome(req, reg, jars, mimeOf, index);
      var permanentKey := RemoveEnd(RemoveStart(reg.redirects[key], "/"), "/");
      return Some(MovedPermanently(req.contextPath + req.servletPath + "/" + permanentKey + path[index..]));
    }
    if key in reg.aliases {
      ContentOutcome(req, reg, jars, mimeOf, index);
      var temporaryKey := RemoveEnd(RemoveStart(reg.aliases[key], "/"), "/");
      return Some(MovedTemporarily(req.contextPath + req.servletPath + "/" + temporaryKey + path[index..]));
    }
    var found := OpenEntry(reg.bundles, jars, path, index, key);
    if found.None? {
      return None;
    }
    ContentOutcome(req, reg, jars, mimeOf, index);
    var resp := Serve(reg.params, mimeOf, found.value.0, found.value.1, found.value.2);
    return Some(resp);
  }

  /** The headers and body for an entry found: length, type, cache policy, then the bytes. */
  method Serve(params: map<string, string>, mimeOf: string -> Option<string>, resource: string, fileName: string, jarEntry: JarEntry)
    returns (resp: Response)
    ensures mimeOf(fileName).None? && MimeKey("null") !in params ==> resp == ServerError("NullPointerException")
    ensures !(mimeOf(fileName).None? && MimeKey("null") !in params) ==> var cc := CacheControl(params, mimeOf(fileName));
      resp == Served(resource, fileName, mimeOf(fileName), ContentLength(jarEntry.size),
                     if IsNotBlank(cc) then cc else None, jarEntry.data)
  {
    var contentLength: Option<int> := None;
    if jarEntry.size > 0 && jarEntry.size < IntMax {
      contentLength := Some(jarEntry.size);
    }
    var mimeType := mimeOf(fileName);
    var cacheControl := LookupCacheControl(params, mimeType);
    if cacheControl.Failure? {
      return ServerError(cacheControl.error);
    }
    var header := if IsNotBlank(cacheControl.value) then cacheControl.value else None;
    resp := Served(resource, fileName, mimeType, contentLength, header, jarEntry.data);
  }

  /** The jars alone, from the very first '/' on. */
  const JarsOnly: Checks := Checks(false, true)

  /** getLastModified: the time of the first entry the walk finds, or -1. */
  function LastModifiedTime(req: Request, reg: Registry, jars: map<string, Archive>): (t: int)
    ensures var path := StripPluginsRoot(RequestPath(req));
      (forall j :: 0 <= j < |path| && path[j] == '/' ==> !Resolves(reg.bundles, jars, path, j)) ==> t == -1
    ensures var path := StripPluginsRoot(RequestPath(req));
      forall i :: 0 <= i < |path| && path[i] == '/' && Resolves(reg.bundles, jars, path, i) ==>
        (forall j :: 0 <= j < i && path[j] == '/' ==> !Resolves(reg.bundles, jars, path, j)) ==>
        t == jars[JarPath(ArchiveKey(reg.bundles, CandidateKey(path, i)))].entries[FileNameAt(path, i)].time
  {
    var path := StripPluginsRoot(RequestPath(req));
    var i := FirstCandidate(reg, jars, path, 0, JarsOnly);
    if i == -1 then -1
    else jars[JarPath(ArchiveKey(reg.bundles, CandidateKey(path, i)))].entries[FileNameAt(path, i)].time
  }

  /** getLastModified statement by statement. */
  method GetLastModified(req: Request, reg: Registry, jars: map<string, Archive>) returns (t: int)
    ensures t == LastModifiedTime(req, reg, jars)
  {
    var path := StrippedPath(req);
    var index := IndexOf(path, '/', 0);
    while index != -1
      invariant index == -1 || (0 <= index < |path| && path[index] == '/')
      invariant forall j :: 0 <= j < |path| && (index == -1 || j < index) && path[j] == '/' ==> !Decisive(reg, jars, path, j, JarsOnly)
      decreases if index < 0 then 0 else |path| + 1 - index
    {
      var key := KeyAt(path, index);
      var found := OpenEntry(reg.bundles, jars, path, index, key);
      if found.None? {
        index := IndexOf(path, '/', index + 1);
        continue;
      }
      FirstCandidateUnique(reg, jars, path, 0, JarsOnly, index);
      t := found.value.2.time;
      return;
    }
    FirstCandidateUnique(reg, jars, path, 0, JarsOnly, -1);
    t := -1;
  }

  /**
   * The response is decided at the first '/' past the leading character whose candidate settles
   * it: a permanent redirect before an alias before the jar entry.
   */
  lemma ContentOutcome(req: Request, reg: Registry, jars: map<string, Archive>, mimeOf: string -> Option<string>, i: nat)
    requires var path := StripPluginsRoot(RequestPath(req));
      && 1 <= i < |path| && path[i] == '/' && Decisive(reg, jars, path, i, Everything)
      && forall j :: 1 <= j < i && path[j] == '/' ==> !Decisive(reg, jars, path, j, Everything)
    ensures var path := StripPluginsRoot(RequestPath(req));
      var key := CandidateKey(path, i);
      var r := ContentResponse(req, reg, jars, mimeOf);
      && (key in reg.redirects ==> r == MovedPermanently(Location(req, reg.redirects[key], path, i)))
      && (key !in reg.redirects && key in reg.aliases ==> r == MovedTemporarily(Location(req, reg.aliases[key], path, i)))
      && (key !in reg.redirects && key !in reg.aliases ==> r == ServedAt(reg, jars, mimeOf, path, i))
  {
    var path := StripPluginsRoot(RequestPath(req));
    FirstCandidateUnique(reg, jars, path, 1, Everything, i);
  }

  /** A redirect on a bundle name sends the rest of the path, unchanged, to the new name. */
  lemma BundleRedirect(req: Request, reg: Registry, jars: map<string, Archive>, mimeOf: string -> Option<string>, key: string, rest: string)
    requires key != [] && '/' !in key && key in reg.redirects
    requires RequestPath(req) == "/" + key + "/" + rest
    requires IndexOfString(RequestPath(req), PluginsRoot, 0) == -1
    ensures ContentResponse(req, reg, jars, mimeOf)
         == MovedPermanently(req.contextPath + req.servletPath + "/" + TrimSlashes(reg.redirects[key]) + "/" + rest)
  {
    FirstSegment(key, rest);
    FirstSegmentRedirected(req, reg, jars, mimeOf, key, rest);
    LocationOfRest(req, reg.redirects[key], RequestPath(req), |key| + 1, rest);
  }

  /** The response to /key/rest when key is redirected: a permanent redirect decided at the '/' after key. */
  lemma FirstSegmentRedirected(req: Request, reg: Registry, jars: map<string, Archive>, mimeOf: string -> Option<string>, key: string, rest: string)
    requires '/' !in key && key in reg.redirects
    requires RequestPath(req) == "/" + key + "/" + rest
    requires IndexOfString(RequestPath(req), PluginsRoot, 0) == -1
    ensures |key| + 1 <= |RequestPath(req)|
    ensures ContentResponse(req, reg, jars, mimeOf) == MovedPermanently(Location(req, reg.redirects[key], RequestPath(req), |key| + 1))
  {
    FirstSegment(key, rest);
    assert StripPluginsRoot(RequestPath(req)) == RequestPath(req);
    ContentOutcome(req, reg, jars, mimeOf, |key| + 1);
  }

  /** The Location for a '/' followed by rest ends with that '/' and rest. */
  lemma LocationOfRest(req: Request, target: string, path: string, i: nat, rest: string)
    requires i <= |path| && path[i..] == "/" + rest
    ensures Location(req, target, path, i) == req.contextPath + req.servletPath + "/" + TrimSlashes(target) + "/" + rest
  {
    var base := req.contextPath + req.servletPath + "/";
    assert Location(req, target, path, i) == base + TrimSlashes(target) + path[i..];
    assert base + TrimSlashes(target) + ("/" + rest) == base + TrimSlashes(target) + "/" + rest;
  }

  /**
   * Unless the leading '/' itself names a jar entry, Last-Modified reports the time of the very
   * entry the GET serves.
   */
  lemma LastModifiedOfServed(req: Request, reg: Registry, jars: map<string, Archive>, mimeOf: string -> Option<string>)
    requires var path := StripPluginsRoot(RequestPath(req));
      path != [] && path[0] == '/' ==> !Resolves(reg.bundles, jars, path, 0)
    requires ContentResponse(req, reg, jars, mimeOf).Served?
    ensures var r := ContentResponse(req, reg, jars, mimeOf);
      LastModifiedTime(req, reg, jars) == jars[r.jar].entries[r.fileName].time
  {
    var path := StripPluginsRoot(RequestPath(req));
    var i := FirstCandidate(reg, jars, path, 1, Everything);
    assert Resolves(reg.bundles, jars, path, i);
    FirstCandidateUnique(reg, jars, path, 0, JarsOnly, i);
  }
}
