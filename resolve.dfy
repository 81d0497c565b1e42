/**
 * The request-path walk both servlets share: the /PLUGINS_ROOT/ strip, the candidate bundle key
 * before each '/', the redirect Location, and the first '/' at which a candidate settles the request.
 */
module Resolve {
  import opened Wrappers
  import opened JavaStrings
  import opened Listener

  const PluginsRoot: string := "/PLUGINS_ROOT/"

  /** What a servlet reads of a request; a parameter is present when the map holds it. */
  datatype Request = Request(contextPath: string, servletPath: string, pathInfo: Option<string>, parameters: map<string, string>)

  /** The path info, or the servlet path when there is none. */
  function RequestPath(req: Request): string {
    req.pathInfo.GetOr(req.servletPath)
  }

  /** A path holding /PLUGINS_ROOT/ continues from that marker's final '/'. */
  function StripPluginsRoot(path: string): (r: string)
    ensures var i := IndexOfString(path, PluginsRoot, 0);
      && (i == -1 ==> r == path)
      && (i != -1 ==> path == path[..i] + "/PLUGINS_ROOT" + r && StartsWith(r, "/"))
  {
    var i := IndexOfString(path, PluginsRoot, 0);
    if i == -1 then path
    else
      assert path[i..i + |PluginsRoot|] == PluginsRoot;
      assert path[i..i + 13] == PluginsRoot[..13] == "/PLUGINS_ROOT";
      assert path[i + 13] == PluginsRoot[13] == '/';
      assert path == path[..i] + path[i..i + 13] + path[i + 13..];
      path[i + |PluginsRoot| - 1..]
  }

  /** The path a servlet works on: the request path with everything before /PLUGINS_ROOT's final '/' dropped. */
  method StrippedPath(req: Request) returns (path: string)
    ensures path == StripPluginsRoot(RequestPath(req))
  {
    path := req.pathInfo.GetOr(req.servletPath);
    var index := IndexOfString(path, PluginsRoot, 0);
    if index != -1 {
      path := path[index + |PluginsRoot| - 1..];
    }
  }

  /** The candidate bundle key for the '/' at i: the text before it, less one leading '/'. */
  function CandidateKey(path: string, i: nat): (key: string)
    requires i <= |path|
    ensures StartsWith(path[..i], "/") ==> "/" + key == path[..i]
    ensures !StartsWith(path[..i], "/") ==> key == path[..i]
    ensures '/' !in path[..i] ==> key == path[..i]
  {
    RemoveStart(path[..i], "/")
  }

  /** path.substring(0, index), less a leading '/'. */
  method KeyAt(path: string, index: nat) returns (key: string)
    requires index <= |path|
    ensures key == CandidateKey(path, index)
  {
    key := path[..index];
    if StartsWith(key, "/") {
      key := key[1..];
    }
  }

  /** The resource path of the jar for a key: BUNDLE_PATH + "/" + key + ".jar". */
  function JarPath(key: string): (p: string)
    ensures p == BundlePrefix + key + ".jar"
  {
    BundlePath + "/" + key + ".jar"
  }

  /** A symbolic name in the bundles table stands for the jar's stem; any other key is a stem itself. */
  function ArchiveKey(bundles: map<string, string>, key: string): (stem: string)
    ensures key in bundles ==> stem == bundles[key]
    ensures key !in bundles ==> stem == key
  {
    if key in bundles then bundles[key] else key
  }

  /** The entry name for the '/' at i: the text after it, up to the first '#' or the end. */
  function FileNameAt(path: string, i: nat): (name: string)
    requires i < |path| && path[i] == '/'
    ensures name <= path[i + 1..] && '#' !in name
    ensures name == path[i + 1..] || path[i + 1 + |name|] == '#'
  {
    var end := IndexOf(path, '#', i);
    path[i + 1..if end == -1 then |path| else end]
  }

  /** The Location header of a redirect: the trimmed target in place of the key, the rest of the path kept. */
  function Location(req: Request, target: string, path: string, i: nat): (loc: string)
    requires i <= |path|
    ensures var base := req.contextPath + req.servletPath + "/";
      && StartsWith(loc, base) && EndsWith(loc, path[i..])
      && |loc| == |base| + |TrimSlashes(target)| + |path| - i
      && loc[|base|..|loc| - (|path| - i)] == TrimSlashes(target)
  {
    var base := req.contextPath + req.servletPath + "/";
    var loc := base + TrimSlashes(target) + path[i..];
    assert loc[..|base|] == base;
    assert loc[|loc| - (|path| - i)..] == path[i..];
    loc
  }

  /** Which checks a walk makes at each '/': the redirect tables, the archive lookup, or both. */
  datatype Checks = Checks(tables: bool, archive: bool)

  /** The candidate at i names an opened jar holding the entry the rest of the path names. */
  predicate Resolves(bundles: map<string, string>, jars: map<string, Archive>, path: string, i: nat)
    requires i < |path| && path[i] == '/'
  {
    var jar := JarPath(ArchiveKey(bundles, CandidateKey(path, i)));
    jar in jars && FileNameAt(path, i) in jars[jar].entries
  }

  /**
   * The jar lookup for the candidate at index: the bundles table, the jar's resource path, the
   * entry up to any '#'; None when the jar or the entry is missing.
   */
  method OpenEntry(bundles: map<string, string>, jars: map<string, Archive>, path: string, index: nat, key: string)
    returns (found: Option<(string, string, JarEntry)>)
    requires index < |path| && path[index] == '/' && key == CandidateKey(path, index)
    ensures found.Some? <==> Resolves(bundles, jars, path, index)
    ensures found.Some? ==> var jar := JarPath(ArchiveKey(bundles, key));
      found.value == (jar, FileNameAt(path, index), jars[jar].entries[FileNameAt(path, index)])
  {
    var stem := key;
    if stem in bundles {
      stem := bundles[stem];
    }
    var resource := BundlePath + "/" + stem + ".jar";
    if resource !in jars {
      return None;
    }
    var jarFile := jars[resource];
    var endOfFileName := IndexOf(path, '#', index);
    endOfFileName := if endOfFileName == -1 then |path| else endOfFileName;
    var fileName := path[index + 1..endOfFileName];
    if fileName !in jarFile.entries {
      return None;
    }
    return Some((resource, fileName, jarFile.entries[fileName]));
  }

  /** The candidate at i settles the request: a redirect, an alias, or an entry to serve. */
  predicate Decisive(reg: Registry, jars: map<string, Archive>, path: string, i: nat, checks: Checks)
    requires i < |path| && path[i] == '/'
  {
    var key := CandidateKey(path, i);
    || (checks.tables && (key in reg.redirects || key in reg.aliases))
    || (checks.archive && Resolves(reg.bundles, jars, path, i))
  }

  /** The first '/' at or after from whose candidate settles the request, or -1 when none does. */
  function FirstCandidate(reg: Registry, jars: map<string, Archive>, path: string, from: nat, checks: Checks): (i: int)
    ensures i == -1 || (from <= i < |path| && path[i] == '/' && Decisive(reg, jars, path, i, checks))
    ensures forall j :: from <= j < |path| && (i == -1 || j < i) && path[j] == '/' ==> !Decisive(reg, jars, path, j, checks)
    decreases |path| - from
  {
    var k := IndexOf(path, '/', from);
    if k == -1 then -1
    else if Decisive(reg, jars, path, k, checks) then k
    else FirstCandidate(reg, jars, path, k + 1, checks)
  }

  /** Any '/' that settles the request with no earlier one that does is the one the walk stops at. */
  lemma FirstCandidateUnique(reg: Registry, jars: map<string, Archive>, path: string, from: nat, checks: Checks, i: int)
    requires i == -1 || (from <= i < |path| && path[i] == '/' && Decisive(reg, jars, path, i, checks))
    requires forall j :: from <= j < |path| && (i == -1 || j < i) && path[j] == '/' ==> !Decisive(reg, jars, path, j, checks)
    ensures FirstCandidate(reg, jars, path, from, checks) == i
  {
  }

  /** In "/" + key + "/" + rest, with no '/' in key, the first '/' after the leading one ends the key. */
  lemma FirstSegment(key: string, rest: string)
    requires '/' !in key
    ensures var path := "/" + key + "/" + rest; var i := |key| + 1;
      && i < |path| && path[i] == '/' && CandidateKey(path, i) == key && path[i..] == "/" + rest
      && forall j :: 1 <= j < i ==> path[j] != '/'
  {
    var path := "/" + key + "/" + rest;
    var i := |key| + 1;
    assert path[..i] == "/" + key;
    assert path[i..] == "/" + rest;
    assert forall j :: 1 <= j < i ==> path[j] == key[j - 1];
  }

  /** A jar loaded under its symbolic name is reached through that name just as through its file stem. */
  lemma SymbolicNameReachesJar(reg: Registry, path: string, a: Archive, r: Readers, indexing: bool)
    requires StartsWith(path, BundlePrefix) && EndsWith(path, ".jar")
    requires reg.contents.Valid()
    requires a.symbolicName.Some?
    ensures var next := AddBundle(reg, path, a, r, indexing);
      && JarPath(ArchiveKey(next.bundles, BundleKey(path, a))) == path
      && JarPath(JarStem(path)) == path
  {
  }
}
