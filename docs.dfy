/**
 * DocsServlet: the front controller for /docs. It turns a topic request into the page of the first
 * bundle that has the topic, sends the site's entry points to the default page, applies the
 * redirect tables to ordinary paths, and either forwards to the content servlet or renders the
 * documentation template around the page.
 */
module Docs {
  import opened Wrappers
  import opened JavaStrings
  import opened Toc
  import opened LinkedMaps
  import opened Listener
  import opened Resolve

  /** What the servlet does with a request. */
  datatype DocsResponse =
    | SendRedirect(location: string)
    | MovedPermanently(location: string)
    | MovedTemporarily(location: string)
    | Forward(target: string)
    | Template(content: Option<string>)

  /** TocEntry.lookupTopic, which is not part of this model: the entry of a table of contents for a topic key, if any. */
  type TopicLookup = (TocEntry, string) -> Option<TocEntry>

  // ------------------------------------------------------------------------------------------
  // findTopicPath
  // ------------------------------------------------------------------------------------------

  /** The position, from from on, of the first bundle in insertion order whose contents have the topic, or -1. */
  function FirstWithTopic(contents: LinkedMap<TocEntry>, lookup: TopicLookup, topic: string, from: nat): (i: int)
    requires contents.Valid()
    ensures i == -1 || (from <= i < |contents.keys| && lookup(contents.values[contents.keys[i]], topic).Some?)
    ensures forall j :: from <= j < |contents.keys| && (i == -1 || j < i) ==> lookup(contents.values[contents.keys[j]], topic).None?
    decreases |contents.keys| - from
  {
    if from >= |contents.keys| then -1
    else if lookup(contents.values[contents.keys[from]], topic).Some? then from
    else FirstWithTopic(contents, lookup, topic, from + 1)
  }

  /** The page of a topic: "/" + bundle key + "/" + the entry's href, or "/docs" when no bundle has it. */
  function TopicPath(contents: LinkedMap<TocEntry>, lookup: TopicLookup, topic: string): (path: string)
    requires contents.Valid()
  {
    var i := FirstWithTopic(contents, lookup, topic, 0);
    if i == -1 then "/docs"
    else "/" + contents.keys[i] + "/" + JavaText(lookup(contents.values[contents.keys[i]], topic).value.href)
  }

  /**
   * findTopicPath: the entries of the contents in insertion order, returning at the first whose
   * table of contents knows the topic.
   */
  method FindTopicPath(contents: LinkedMap<TocEntry>, lookup: TopicLookup, topic: string) returns (path: string)
    requires contents.Valid()
    ensures path == TopicPath(contents, lookup, topic)
  {
    var i := 0;
    while i < |contents.keys|
      invariant 0 <= i <= |contents.keys|
      invariant forall j :: 0 <= j < i ==> lookup(contents.values[contents.keys[j]], topic).None?
    {
      var key := contents.keys[i];
      var tocEntry := lookup(contents.values[key], topic);
      if tocEntry.Some? {
        FirstWithTopicUnique(contents, lookup, topic, i);
        return "/" + key + "/" + JavaText(tocEntry.value.href);
      }
      i := i + 1;
    }
    FirstWithTopicUnique(contents, lookup, topic, -1);
    return "/docs";
  }

  /** The first bundle with the topic is the one FirstWithTopic names. */
  lemma FirstWithTopicUnique(contents: LinkedMap<TocEntry>, lookup: TopicLookup, topic: string, i: int)
    requires contents.Valid()
    requires i == -1 || (0 <= i < |contents.keys| && lookup(contents.values[contents.keys[i]], topic).Some?)
    requires forall j :: 0 <= j < |contents.keys| && (i == -1 || j < i) ==> lookup(contents.values[contents.keys[j]], topic).None?
    ensures FirstWithTopic(contents, lookup, topic, 0) == i
  {
  }

  /** When several bundles have the topic, the one added to the contents first wins: a bundle added later does not displace it. */
  lemma TopicFromFirstBundle(contents: LinkedMap<TocEntry>, lookup: TopicLookup, topic: string, key: string, toc: TocEntry)
    requires contents.Valid()
    requires FirstWithTopic(contents, lookup, topic, 0) != -1
    requires key !in contents.values
    ensures contents.Put(key, toc).Valid()
    ensures TopicPath(contents.Put(key, toc), lookup, topic) == TopicPath(contents, lookup, topic)
  {
    var i := FirstWithTopic(contents, lookup, topic, 0);
    var next := contents.Put(key, toc);
    assert contents.keys[i] != key;
    forall j | 0 <= j < |next.keys| && j < i
      ensures lookup(next.values[next.keys[j]], topic).None?
    {
      assert next.keys[j] == contents.keys[j] && contents.keys[j] != key;
    }
    FirstWithTopicUnique(next, lookup, topic, i);
  }

  /** A topic no bundle has leads to "/docs". */
  lemma UnknownTopicPath(contents: LinkedMap<TocEntry>, lookup: TopicLookup, topic: string)
    requires contents.Valid()
    requires forall k :: k in contents.values ==> lookup(contents.values[k], topic).None?
    ensures TopicPath(contents, lookup, topic) == "/docs"
  {
    FirstWithTopicUnique(contents, lookup, topic, -1);
  }

  // ------------------------------------------------------------------------------------------
  // The string decisions of doGet
  // ------------------------------------------------------------------------------------------

  /**
   * The default-page redirects: with default.page.path set, "/docs" goes to "docs/" and "/" to the
   * page itself, less a leading '/' either way; without it, "/docs" goes to "/docs/".
   */
  function DefaultRedirect(path: string, defaultPath: Option<string>): (r: Option<string>)
    ensures r.Some? ==> path == "/docs" || (path == "/" && IsNotBlank(defaultPath))
    ensures IsNotBlank(defaultPath) && path == "/docs" ==> r == Some("docs/" + RemoveStart(defaultPath.value, "/"))
    ensures IsNotBlank(defaultPath) && path == "/" ==> r == Some(RemoveStart(defaultPath.value, "/"))
    ensures !IsNotBlank(defaultPath) && path == "/docs" ==> r == Some("/docs/")
  {
    if IsNotBlank(defaultPath) then
      var d := defaultPath.value;
      if path == "/docs" then
        if StartsWith(d, "/") then
          assert "docs" + d == "docs/" + d[1..];
          Some("docs" + d)
        else Some("docs/" + d)
      else if path == "/" then Some(if StartsWith(d, "/") then d[1..] else d)
      else None
    else if path == "/docs" then Some("/docs/")
    else None
  }

  /** The file name of a path: what follows the last '/' before the first '#' (or the end), up to it. */
  function FileName(path: string): (f: string)
    ensures var page := CutAt(path, '#');
      && EndsWith(page, f) && '/' !in f
      && (f == page || page[|page| - |f| - 1] == '/')
  {
    var end := IndexOf(path, '#', 0);
    var end := if end == -1 then |path| else end;
    var start := LastIndexOf(path, '/', end);
    var start := if start == -1 then 0 else start + 1;
    assert forall j :: start <= j < end ==> path[j] != '/';
    path[start..end]
  }

  /** The raw parameter, or a non-empty name that is not an HTML page, sends the request to the content servlet. */
  predicate Forwarded(raw: bool, fileName: string) {
    raw || (!EndsWith(ToLower(fileName), ".htm") && !EndsWith(ToLower(fileName), ".html") && fileName != "")
  }

  /** After the redirects: forward to "/content" + path, or render the template around the page. */
  function Dispatch(raw: bool, isTopic: bool, path: string, pathInfo: Option<string>): (r: DocsResponse)
    ensures r.Forward? || r.Template?
    ensures r.Forward? <==> Forwarded(raw, FileName(path))
    ensures !raw && (FileName(path) == [] || EndsWith(ToLower(FileName(path)), ".htm") || EndsWith(ToLower(FileName(path)), ".html")) ==> r.Template?
    ensures r.Forward? ==> r.target == "/content" + path
    ensures r.Template? ==> !raw && (FileName(path) == [] || EndsWith(ToLower(FileName(path)), ".htm") || EndsWith(ToLower(FileName(path)), ".html"))
    ensures r.Template? && isTopic ==> r.content == Some(path)
    ensures r.Template? && !isTopic ==> r.content == pathInfo
  {
    if Forwarded(raw, FileName(path)) then Forward("/content" + path)
    else Template(if isTopic then Some(path) else pathInfo)
  }

  /** The redirect tables alone, from the very first '/' on: the empty key is a candidate too. */
  const TablesOnly: Checks := Checks(true, false)

  /** A request naming a topic: the topic parameter is present and not empty. */
  predicate IsTopic(req: Request) {
    "topic" in req.parameters && |req.parameters["topic"]| > 0
  }

  /** The path doGet works on: the topic's page, or the request path with /PLUGINS_ROOT/ stripped. */
  function DocsPath(req: Request, reg: Registry, lookup: TopicLookup): string
    requires reg.contents.Valid()
  {
    if IsTopic(req) then TopicPath(reg.contents, lookup, req.parameters["topic"]) else StripPluginsRoot(RequestPath(req))
  }

  /** The response to a GET on the docs servlet. */
  function DocsResponseOf(req: Request, reg: Registry, lookup: TopicLookup): (r: DocsResponse)
    requires reg.contents.Valid()
    ensures (r.MovedPermanently? || r.MovedTemporarily?) ==> !IsTopic(req)
    ensures var path := DocsPath(req, reg, lookup);
      r.SendRedirect? <==> DefaultRedirect(path, Get(reg.params, "default.page.path")).Some?
  {
    var path := DocsPath(req, reg, lookup);
    var redirect := DefaultRedirect(path, Get(reg.params, "default.page.path"));
    if redirect.Some? then SendRedirect(redirect.value)
    else
      var i := if IsTopic(req) then -1 else FirstCandidate(reg, map[], path, 0, TablesOnly);
      if i == -1 then Dispatch("raw" in req.parameters, IsTopic(req), path, req.pathInfo)
      else TableRedirect(req, reg, path, i)
  }

  /** The redirect for the key at i: permanent before temporary, the rest of the path kept. */
  function TableRedirect(req: Request, reg: Registry, path: string, i: nat): (r: DocsResponse)
    requires i < |path| && path[i] == '/' && Decisive(reg, map[], path, i, TablesOnly)
    ensures var key := CandidateKey(path, i);
      && (key in reg.redirects ==> r == MovedPermanently(Location(req, reg.redirects[key], path, i)))
      && (key !in reg.redirects ==> r == MovedTemporarily(Location(req, reg.aliases[key], path, i)))
  {
    var key := CandidateKey(path, i);
    if key in reg.redirects then MovedPermanently(Location(req, reg.redirects[key], path, i))
    else MovedTemporarily(Location(req, reg.aliases[key], path, i))
  }

  /** doGet statement by statement. */
  method DoGet(req: Request, reg: Registry, lookup: TopicLookup) returns (resp: DocsResponse)
    requires reg.contents.Valid()
    ensures resp == DocsResponseOf(req, reg, lookup)
  {
    var raw := "raw" in req.parameters;
    var topicKey := Get(req.parameters, "topic");
    var isTopic := topicKey.Some? && |topicKey.value| > 0;
    var path := StrippedPath(req);
    if isTopic {
      path := FindTopicPath(reg.contents, lookup, topicKey.value);
    }
    assert path == DocsPath(req, reg, lookup);
    var redirect := DefaultPage(path, Get(reg.params, "default.page.path"));
    if redirect.Some? {
      return SendRedirect(redirect.value);
    }
    if !isTopic {
      var moved := RedirectLoop(req, reg, path);
      if moved.Some? {
        return moved.value;
      }
    }
    resp := DispatchPage(raw, isTopic, path, req.pathInfo);
  }

  /** The default-page tests of doGet, in their order. */
  method DefaultPage(path: string, defaultPath: Option<string>) returns (redirect: Option<string>)
    ensures redirect == DefaultRedirect(path, defaultPath)
  {
    if IsNotBlank(defaultPath) {
      if path == "/docs" {
        return Some(if StartsWith(defaultPath.value, "/") then "docs" + defaultPath.value else "docs/" + defaultPath.value);
      }
      if path == "/" {
        return Some(if StartsWith(defaultPath.value, "/") then defaultPath.value[1..] else defaultPath.value);
      }
    } else {
      if path == "/docs" {
        return Some("/docs/");
      }
    }
    return None;
  }

  /** The redirect/alias loop of doGet; None when no key before a '/' is in either table. */
  method RedirectLoop(req: Request, reg: Registry, path: string) returns (moved: Option<DocsResponse>)
    ensures var i := FirstCandidate(reg, map[], path, 0, TablesOnly);
      && (moved.None? <==> i == -1)
      && (moved.Some? ==> i != -1 && moved.value == TableRedirect(req, reg, path, i))
  {
    var index := IndexOf(path, '/', 0);
    while index != -1
      invariant index == -1 || (0 <= index < |path| && path[index] == '/')
      invariant forall j :: 0 <= j < |path| && (index == -1 || j < index) && path[j] == '/' ==> !Decisive(reg, map[], path, j, TablesOnly)
      decreases if index < 0 then 0 else |path| + 1 - index
    {
      var key := KeyAt(path, index);
      if key in reg.redirects {
        FirstCandidateUnique(reg, map[], path, 0, TablesOnly, index);
        var permanentKey := RemoveEnd(RemoveStart(reg.redirects[key], "/"), "/");
        return Some(MovedPermanently(req.contextPath + req.servletPath + "/" + permanentKey + path[index..]));
      }
      if key in reg.aliases {
        FirstCandidateUnique(reg, map[], path, 0, TablesOnly, index);
        var temporaryKey := RemoveEnd(RemoveStart(reg.aliases[key], "/"), "/");
        return Some(MovedTemporarily(req.contextPath + req.servletPath + "/" + temporaryKey + path[index..]));
      }
      index := IndexOf(path, '/', index + 1);
    }
    FirstCandidateUnique(reg, map[], path, 0, TablesOnly, -1);
    return None;
  }

  /** The file name and the forward-or-template decision. */
  method DispatchPage(raw: bool, isTopic: bool, path: string, pathInfo: Option<string>) returns (resp: DocsResponse)
    ensures resp == Dispatch(raw, isTopic, path, pathInfo)
  {
    var endOfFileName := IndexOf(path, '#', 0);
    endOfFileName := if endOfFileName == -1 then |path| else endOfFileName;
    var startOfFileName := LastIndexOf(path, '/', endOfFileName);
    startOfFileName := if startOfFileName == -1 then 0 else startOfFileName + 1;
    var fileName := path[startOfFileName..endOfFileName];
    assert fileName == FileName(path);
    if raw || (!EndsWith(ToLower(fileName), ".htm") && !EndsWith(ToLower(fileName), ".html") && fileName != "") {
      resp := Forward("/content" + path);
    } else if isTopic {
      resp := Template(Some(path));
    } else {
      resp := Template(pathInfo);
    }
  }

  // ------------------------------------------------------------------------------------------
  // Properties of doGet
  // ------------------------------------------------------------------------------------------

  /**
   * Unlike the content servlet's walk, the docs walk tries the empty key before the leading '/':
   * a redirect of "" sends every plain path elsewhere, the whole path kept.
   */
  lemma EmptyKeyRedirects(req: Request, reg: Registry, lookup: TopicLookup)
    requires reg.contents.Valid() && !IsTopic(req) && "" in reg.redirects
    requires var path := StripPluginsRoot(RequestPath(req));
      StartsWith(path, "/") && path != "/docs" && path != "/"
    ensures DocsResponseOf(req, reg, lookup)
         == MovedPermanently(req.contextPath + req.servletPath + "/" + TrimSlashes(reg.redirects[""]) + StripPluginsRoot(RequestPath(req)))
  {
    var path := StripPluginsRoot(RequestPath(req));
    assert path[0] == '/';
    assert CandidateKey(path, 0) == "";
    FirstCandidateUnique(reg, map[], path, 0, TablesOnly, 0);
  }

  /** A topic request is never redirected by the tables: it is sent to the default page or dispatched. */
  lemma TopicIgnoresTables(req: Request, reg: Registry, lookup: TopicLookup)
    requires reg.contents.Valid() && IsTopic(req)
    requires DefaultRedirect(DocsPath(req, reg, lookup), Get(reg.params, "default.page.path")).None?
    ensures DocsResponseOf(req, reg, lookup)
         == Dispatch("raw" in req.parameters, true, DocsPath(req, reg, lookup), req.pathInfo)
  {
  }

  /** A topic no bundle has ends at the default page, or at "/docs/" when none is configured. */
  lemma UnknownTopicGoesHome(req: Request, reg: Registry, lookup: TopicLookup)
    requires reg.contents.Valid() && IsTopic(req)
    requires forall k :: k in reg.contents.values ==> lookup(reg.contents.values[k], req.parameters["topic"]).None?
    ensures var d := Get(reg.params, "default.page.path");
      DocsResponseOf(req, reg, lookup) == SendRedirect(if IsNotBlank(d) then "docs/" + RemoveStart(d.value, "/") else "/docs/")
  {
    UnknownTopicPath(reg.contents, lookup, req.parameters["topic"]);
  }

  /** A page followed by nothing or by a fragment is cut back to the page at its '#'. */
  lemma CutFragment(page: string, fragment: string)
    requires '#' !in page && (fragment == [] || fragment[0] == '#')
    ensures CutAt(page + fragment, '#') == page
  {
    var path := page + fragment;
    var c := CutAt(path, '#');
    assert forall k :: 0 <= k < |page| ==> path[k] == page[k];
    if fragment != [] {
      assert path[|page|] == '#';
    }
    assert |c| == |page|;
  }

  /** The text after the last '/' of dir + "/" + name is name. */
  lemma LastSegment(dir: string, name: string, f: string)
    requires '/' !in name && '/' !in f
    requires var page := dir + "/" + name; EndsWith(page, f) && (f == page || page[|page| - |f| - 1] == '/')
    ensures f == name
  {
    var page := dir + "/" + name;
    assert page[|page| - |name| - 1] == '/';
    assert forall k :: |page| - |name| <= k < |page| ==> page[k] == name[k - (|page| - |name|)];
    assert forall k :: |page| - |f| <= k < |page| ==> page[k] == f[k - (|page| - |f|)];
    assert |f| == |name|;
    assert page[|page| - |name|..] == name;
  }

  /** The file name of dir/name, with or without a fragment, is name. */
  lemma PageName(dir: string, name: string, fragment: string)
    requires '/' !in name && '#' !in dir && '#' !in name
    requires fragment == [] || fragment[0] == '#'
    ensures FileName(dir + "/" + name + fragment) == name
  {
    CutFragment(dir + "/" + name, fragment);
    LastSegment(dir, name, FileName(dir + "/" + name + fragment));
  }

  /** A page ending in ".html" is rendered in the template unless raw is given. */
  lemma HtmlPageTemplate(dir: string, stem: string, fragment: string, pathInfo: Option<string>)
    requires '/' !in stem && '#' !in dir && '#' !in stem
    requires fragment == [] || fragment[0] == '#'
    ensures Dispatch(false, false, dir + "/" + stem + ".html" + fragment, pathInfo) == Template(pathInfo)
  {
    var name := stem + ".html";
    assert dir + "/" + stem + ".html" + fragment == dir + "/" + name + fragment;
    PageName(dir, name, fragment);
    HtmlSuffix(stem);
  }

  /** Lower-casing keeps the ".html" suffix of a name. */
  lemma HtmlSuffix(stem: string)
    ensures EndsWith(ToLower(stem + ".html"), ".html")
  {
    var name := stem + ".html";
    var lower := ToLower(name);
    assert forall k :: 0 <= k < 5 ==> name[|stem| + k] == ".html"[k];
    assert forall k :: 0 <= k < 5 ==> lower[|stem| + k] == ".html"[k];
    assert lower[|lower| - 5..] == ".html";
  }

  /** ... and so is the response to a plain request for it that no table redirects. */
  lemma HtmlPageRendered(req: Request, reg: Registry, lookup: TopicLookup, dir: string, stem: string, fragment: string)
    requires reg.contents.Valid() && !IsTopic(req) && "raw" !in req.parameters
    requires '/' !in stem && '#' !in dir && '#' !in stem
    requires fragment == [] || fragment[0] == '#'
    requires StripPluginsRoot(RequestPath(req)) == dir + "/" + stem + ".html" + fragment
    requires DefaultRedirect(dir + "/" + stem + ".html" + fragment, Get(reg.params, "default.page.path")).None?
    requires FirstCandidate(reg, map[], dir + "/" + stem + ".html" + fragment, 0, TablesOnly) == -1
    ensures DocsResponseOf(req, reg, lookup) == Template(req.pathInfo)
  {
    HtmlPageTemplate(dir, stem, fragment, req.pathInfo);
  }
}
