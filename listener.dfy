/**
 * The startup build of the registry (ServletContextListenerImpl.contextInitialized): every jar under
 * /WEB-INF/bundles becomes a bundle keyed by its symbolic name or its file stem, its table of contents
 * joins the federated contents, its keywords join the keyword index and its pages are indexed for
 * search; the two redirect property files fill the permanent and temporary redirect tables,
 * sequence.lst gives the display ranking, and the context-param.* settings are layered.
 *
 * The jar, properties and XML machinery outside the core are inputs: a jar is a map from entry
 * name to entry, and the plugin, tokenizer, keyword index and text extraction readers are functions.
 */
module Listener {
  import opened Wrappers
  import opened JavaStrings
  import opened Toc
  import opened LinkedMaps

  type Bytes = seq<bv8>

  const BundlePath: string := "/WEB-INF/bundles"
  /** BUNDLE_PATH + "/": every path the container lists under the bundle directory starts with it. */
  const BundlePrefix: string := "/WEB-INF/bundles/"
  const TocPoint: string := "org.eclipse.help.toc"
  const IndexPoint: string := "org.eclipse.help.index"

  datatype JarEntry = JarEntry(data: Bytes, size: int, time: int)

  /** An opened jar: the manifest's Bundle-SymbolicName (absent with no manifest) and the entries. */
  datatype Archive = Archive(symbolicName: Option<string>, entries: map<string, JarEntry>)

  /** plugin.xml as Plugin.read gives it: extension point -> (file kind -> entry name). */
  datatype Plugin = Plugin(extensions: map<string, map<string, string>>)

  datatype IndexEntry = IndexEntry(keyword: string, bundle: string, href: Option<string>, children: seq<IndexEntry>)

  /** Index.read(key, stream): the keywords, an IllegalStateException, or an XMLStreamException. */
  datatype IndexOutcome = IndexRead(entries: seq<IndexEntry>) | IndexMalformed | IndexStreamError

  /** One search document: the title, the stored href and the searchable body text. */
  datatype SearchDoc = SearchDoc(title: Option<string>, href: string, contents: string)

  /** The readers outside this model; None stands for an XMLStreamException. */
  datatype Readers = Readers(
    plugin: Bytes -> Option<Plugin>,
    tocEvents: Bytes -> Option<seq<Event>>,
    index: (string, Bytes) -> IndexOutcome,
    text: Bytes -> string,
    compiles: string -> bool)

  /** Why a jar was not added to the contents (what the listener logs before `continue`). */
  datatype Skip = NoPluginXml | PluginUnreadable | NoTocExtension | MissingToc | TocUnreadable(message: string)

  /** The registry: what contextInitialized leaves in the servlet context's attributes. */
  datatype Registry = Registry(
    bundles: map<string, string>,
    redirects: map<string, string>,
    aliases: map<string, string>,
    contents: LinkedMap<TocEntry>,
    keywords: seq<IndexEntry>,
    documents: seq<SearchDoc>,
    searchAvailable: bool,
    sequence: Option<seq<string>>,
    params: map<string, string>)

  /**
   * What the servlet context offers at startup: the listed bundle paths in their iteration order
   * (None when the directory is missing), the jars by path (absent: not a jar or not readable),
   * whether the search index could be created, the two redirect property files as their entries in
   * iteration order, the lines of sequence.lst, and the four configuration layers.
   */
  datatype Environment = Environment(
    paths: Option<seq<string>>,
    jars: map<string, Archive>,
    readers: Readers,
    indexWriter: bool,
    permanent: seq<(string, string)>,
    temporary: seq<(string, string)>,
    sequenceLines: seq<string>,
    globalDefaults: map<string, string>,
    webappDefaults: map<string, string>,
    initParameters: map<string, string>,
    overrides: map<string, string>)

  // ------------------------------------------------------------------------------------------
  // Bundle keys
  // ------------------------------------------------------------------------------------------

  /** The key of a jar path: the text between "/WEB-INF/bundles/" and the final ".jar". */
  function JarStem(path: string): (stem: string)
    requires StartsWith(path, BundlePrefix) && EndsWith(path, ".jar")
    ensures path == BundlePrefix + stem + ".jar"
  {
    // ".jar" cannot overlap the prefix, which holds no '.'
    assert path[|path| - 4] == '.' by { assert path[|path| - 4..][0] == ".jar"[0]; }
    assert '.' !in BundlePrefix;
    assert |path| - 4 >= |BundlePrefix|;
    assert path == path[..|BundlePrefix|] + path[|BundlePrefix|..|path| - 4] + path[|path| - 4..];
    path[|BundlePrefix|..|path| - 4]
  }

  /** The symbolic name, if the manifest gives one, cut at the first ';'; otherwise the file stem. */
  function BundleKey(path: string, a: Archive): (key: string)
    requires StartsWith(path, BundlePrefix) && EndsWith(path, ".jar")
    ensures a.symbolicName.Some? ==> key <= a.symbolicName.value && ';' !in key
    ensures a.symbolicName.Some? ==> key == a.symbolicName.value || a.symbolicName.value[|key|] == ';'
    ensures a.symbolicName.Some? && ';' !in a.symbolicName.value ==> key == a.symbolicName.value
    ensures a.symbolicName.None? ==> path == BundlePrefix + key + ".jar"
  {
    if a.symbolicName.Some? then CutAt(a.symbolicName.value, ';') else JarStem(path)
  }

  // ------------------------------------------------------------------------------------------
  // The acceptance chain
  // ------------------------------------------------------------------------------------------

  /** plugin.getExtension(point).getFile(kind). */
  function ExtensionFile(p: Plugin, point: string, kind: string): Option<string> {
    if point in p.extensions && kind in p.extensions[point] then Some(p.extensions[point][kind]) else None
  }

  /** The table of contents a jar contributes, all four conditions holding. */
  ghost predicate TocReadable(a: Archive, r: Readers, plugin: Plugin, toc: TocEntry) {
    && "plugin.xml" in a.entries
    && r.plugin(a.entries["plugin.xml"].data) == Some(plugin)
    && ExtensionFile(plugin, TocPoint, "toc").Some?
    && ExtensionFile(plugin, TocPoint, "toc").value in a.entries
    && r.tocEvents(a.entries[ExtensionFile(plugin, TocPoint, "toc").value].data).Some?
    && ParseToc(r.tocEvents(a.entries[ExtensionFile(plugin, TocPoint, "toc").value].data).value) == Success(toc)
  }

  /**
   * The checks a jar goes through before its table of contents is added, in the listener's order:
   * a plugin.xml, a readable plugin descriptor, a toc extension with a toc file, that entry,
   * and a descriptor that reads as a toc.
   */
  function LoadToc(a: Archive, r: Readers): (res: Result<(Plugin, TocEntry), Skip>)
    ensures res.Success? ==> TocReadable(a, r, res.value.0, res.value.1)
    ensures res == Failure(NoPluginXml) <==> "plugin.xml" !in a.entries
  {
    if "plugin.xml" !in a.entries then Failure(NoPluginXml)
    else match r.plugin(a.entries["plugin.xml"].data)
      case None => Failure(PluginUnreadable)
      case Some(plugin) =>
        match ExtensionFile(plugin, TocPoint, "toc")
        case None => Failure(NoTocExtension)
        case Some(file) =>
          if file !in a.entries then Failure(MissingToc)
          else match r.tocEvents(a.entries[file].data)
            case None => Failure(TocUnreadable("XMLStreamException"))
            case Some(events) =>
              match ParseToc(events)
              case Failure(message) => Failure(TocUnreadable(message))
              case Success(toc) => assert TocReadable(a, r, plugin, toc); Success((plugin, toc))
  }

  /** A jar that passes every check is added, with exactly that descriptor and table of contents. */
  lemma LoadTocComplete(a: Archive, r: Readers, plugin: Plugin, toc: TocEntry)
    requires TocReadable(a, r, plugin, toc)
    ensures LoadToc(a, r) == Success((plugin, toc))
  {
  }

  /** The keywords a loaded bundle adds, or Aborted when Index.read's XMLStreamException ends the bundle. */
  datatype Keywords = Keywords(entries: seq<IndexEntry>) | Aborted

  function KeywordsOf(key: string, a: Archive, plugin: Plugin, r: Readers): (k: Keywords)
    ensures k.Aborted? <==>
      var f := ExtensionFile(plugin, IndexPoint, "index");
      f.Some? && f.value in a.entries && r.index(key, a.entries[f.value].data).IndexStreamError?
    ensures var f := ExtensionFile(plugin, IndexPoint, "index");
      f.Some? && f.value in a.entries && r.index(key, a.entries[f.value].data).IndexRead? ==>
        k == Keywords(r.index(key, a.entries[f.value].data).entries)
    ensures var f := ExtensionFile(plugin, IndexPoint, "index");
      f.None? || f.value !in a.entries || r.index(key, a.entries[f.value].data).IndexMalformed? ==> k == Keywords([])
  {
    match ExtensionFile(plugin, IndexPoint, "index")
    case None => Keywords([])
    case Some(file) =>
      if file !in a.entries then Keywords([])
      else match r.index(key, a.entries[file].data)
        case IndexRead(entries) => Keywords(entries)
        case IndexMalformed => Keywords([])
        case IndexStreamError => Aborted
  }

  // ------------------------------------------------------------------------------------------
  // The search indexing walk
  // ------------------------------------------------------------------------------------------

  /** Every node, the root included, node before children, siblings in order. */
  function PreOrder(t: TocEntry): seq<TocEntry>
    decreases t, 1
  {
    [t] + PreOrderAll(t.children)
  }

  function PreOrderAll(ts: seq<TocEntry>): seq<TocEntry>
    decreases ts, 0
  {
    if ts == [] then [] else PreOrder(ts[0]) + PreOrderAll(ts[1..])
  }

  /** The number of nodes of a tree. */
  function Size(t: TocEntry): nat
    decreases t, 1
  {
    1 + SizeAll(t.children)
  }

  function SizeAll(ts: seq<TocEntry>): nat
    decreases ts, 0
  {
    if ts == [] then 0 else Size(ts[0]) + SizeAll(ts[1..])
  }

  /** The page a node refers to: its href without the fragment (empty for a node without href). */
  function FileOf(e: TocEntry): (f: string)
    ensures e.href.Some? ==> f <= e.href.value && '#' !in f
    ensures e.href.Some? ==> f == e.href.value || e.href.value[|f|] == '#'
    ensures e.href.None? ==> f == ""
  {
    if e.href.Some? then CutAt(e.href.value, '#') else ""
  }

  /** A node yields a document when it has an href whose page is an entry of the jar. */
  predicate Indexable(entries: map<string, JarEntry>, e: TocEntry) {
    e.href.Some? && FileOf(e) in entries
  }

  /** The document for a node: titled by its label, stored under key/href with the fragment kept. */
  function DocOf(key: string, entries: map<string, JarEntry>, text: Bytes -> string, e: TocEntry): (d: SearchDoc)
    requires Indexable(entries, e)
    ensures d.title == e.title && d.href == key + "/" + e.href.value
    ensures d.contents == text(entries[FileOf(e)].data)
  {
    SearchDoc(e.title, key + "/" + e.href.value, text(entries[FileOf(e)].data))
  }

  /** The nodes, in visiting order, for which the listener as written adds a document. */
  function Hits(entries: map<string, JarEntry>, nodes: seq<TocEntry>): (hits: seq<TocEntry>)
    ensures forall i :: 0 <= i < |hits| ==> Indexable(entries, hits[i])
    decreases |nodes|
  {
    if nodes == [] then []
    else
      var last := nodes[|nodes| - 1];
      Hits(entries, nodes[..|nodes| - 1]) + (if Indexable(entries, last) then [last] else [])
  }

  /** The files the given nodes are read from. */
  function FilesOf(hits: seq<TocEntry>): set<string> {
    set i | 0 <= i < |hits| :: FileOf(hits[i])
  }

  /** The nodes that are indexed when a page already indexed is skipped: the first reference wins. */
  function DedupHits(entries: map<string, JarEntry>, nodes: seq<TocEntry>): (hits: seq<TocEntry>)
    ensures forall i :: 0 <= i < |hits| ==> Indexable(entries, hits[i])
    decreases |nodes|
  {
    if nodes == [] then []
    else
      var last := nodes[|nodes| - 1];
      var prev := DedupHits(entries, nodes[..|nodes| - 1]);
      if Indexable(entries, last) && FileOf(last) !in FilesOf(prev) then prev + [last] else prev
  }

  lemma FilesOfSnoc(hits: seq<TocEntry>, e: TocEntry)
    ensures FilesOf(hits + [e]) == FilesOf(hits) + {FileOf(e)}
  {
    var h := hits + [e];
    assert forall i :: 0 <= i < |hits| ==> h[i] == hits[i];
    assert FileOf(h[|hits|]) == FileOf(e);
  }

  /** No two of the nodes are read from the same page. */
  predicate DistinctFiles(hits: seq<TocEntry>) {
    forall i, j :: 0 <= i < j < |hits| ==> FileOf(hits[i]) != FileOf(hits[j])
  }

  /** With the file set kept, no page is indexed twice ... */
  lemma {:induction false} DedupHitsDistinct(entries: map<string, JarEntry>, nodes: seq<TocEntry>)
    ensures DistinctFiles(DedupHits(entries, nodes))
    decreases |nodes|
  {
    if nodes != [] {
      var last := nodes[|nodes| - 1];
      var prev := DedupHits(entries, nodes[..|nodes| - 1]);
      DedupHitsDistinct(entries, nodes[..|nodes| - 1]);
      if Indexable(entries, last) && FileOf(last) !in FilesOf(prev) {
        var hits := prev + [last];
        forall i, j | 0 <= i < j < |hits| ensures FileOf(hits[i]) != FileOf(hits[j]) {
          assert hits[i] == prev[i];
          if j == |prev| {
            assert hits[j] == last;
            assert FileOf(prev[i]) in FilesOf(prev);
          } else {
            assert hits[j] == prev[j];
            assert FileOf(prev[i]) != FileOf(prev[j]);
          }
        }
        assert DedupHits(entries, nodes) == hits;
      } else {
        assert DedupHits(entries, nodes) == prev;
      }
    }
  }

  /** ... and every page some node refers to is still indexed, by its first reference. */
  lemma {:induction false} DedupHitsCovers(entries: map<string, JarEntry>, nodes: seq<TocEntry>)
    ensures FilesOf(DedupHits(entries, nodes)) == FilesOf(Hits(entries, nodes))
    ensures forall i :: 0 <= i < |nodes| && Indexable(entries, nodes[i]) ==> FileOf(nodes[i]) in FilesOf(DedupHits(entries, nodes))
    decreases |nodes|
  {
    if nodes != [] {
      var init := nodes[..|nodes| - 1];
      var last := nodes[|nodes| - 1];
      var prev := DedupHits(entries, init);
      DedupHitsCovers(entries, init);
      var hits := Hits(entries, init);
      assert FilesOf(prev) == FilesOf(hits);
      if Indexable(entries, last) {
        assert Hits(entries, nodes) == hits + [last];
        FilesOfSnoc(hits, last);
        if FileOf(last) !in FilesOf(prev) {
          assert DedupHits(entries, nodes) == prev + [last];
          FilesOfSnoc(prev, last);
        } else {
          assert DedupHits(entries, nodes) == prev;
          assert FilesOf(hits) + {FileOf(last)} == FilesOf(hits);
        }
      } else {
        assert Hits(entries, nodes) == hits + [] == hits;
        assert DedupHits(entries, nodes) == prev;
      }
      forall i | 0 <= i < |nodes| && Indexable(entries, nodes[i])
        ensures FileOf(nodes[i]) in FilesOf(DedupHits(entries, nodes))
      {
        if i < |init| {
          assert nodes[i] == init[i];
          assert FileOf(init[i]) in FilesOf(prev);
        }
      }
    }
  }

  /** A node is the first reference to its page: indexable, and no indexable node before it reads that page. */
  predicate FirstReference(entries: map<string, JarEntry>, nodes: seq<TocEntry>, j: nat)
    requires j < |nodes|
  {
    && Indexable(entries, nodes[j])
    && forall m :: 0 <= m < j && Indexable(entries, nodes[m]) ==> FileOf(nodes[m]) != FileOf(nodes[j])
  }

  /** The first references among the first n nodes, in visiting order. */
  function FirstReferences(entries: map<string, JarEntry>, nodes: seq<TocEntry>, n: nat): seq<TocEntry>
    requires n <= |nodes|
  {
    if n == 0 then []
    else FirstReferences(entries, nodes, n - 1) + (if FirstReference(entries, nodes, n - 1) then [nodes[n - 1]] else [])
  }

  /** A page is among those indexed as written exactly when some indexable node reads it. */
  lemma PageSeen(entries: map<string, JarEntry>, nodes: seq<TocEntry>, f: string)
    ensures f in FilesOf(Hits(entries, nodes)) <==>
      exists m :: 0 <= m < |nodes| && Indexable(entries, nodes[m]) && FileOf(nodes[m]) == f
  {
    HitsAreIndexableNodes(entries, nodes);
    if f in FilesOf(Hits(entries, nodes)) {
      HitReadsPage(entries, nodes, f);
    } else {
      NodeReadsPage(entries, nodes, f);
    }
  }

  lemma HitReadsPage(entries: map<string, JarEntry>, nodes: seq<TocEntry>, f: string)
    requires forall h :: h in Hits(entries, nodes) ==> h in nodes && Indexable(entries, h)
    requires f in FilesOf(Hits(entries, nodes))
    ensures exists m :: 0 <= m < |nodes| && Indexable(entries, nodes[m]) && FileOf(nodes[m]) == f
  {
    var hits := Hits(entries, nodes);
    var i :| 0 <= i < |hits| && FileOf(hits[i]) == f;
    assert hits[i] in hits;
    var m :| 0 <= m < |nodes| && nodes[m] == hits[i];
    assert Indexable(entries, nodes[m]) && FileOf(nodes[m]) == f;
  }

  lemma NodeReadsPage(entries: map<string, JarEntry>, nodes: seq<TocEntry>, f: string)
    requires forall i :: 0 <= i < |nodes| && Indexable(entries, nodes[i]) ==> nodes[i] in Hits(entries, nodes)
    requires f !in FilesOf(Hits(entries, nodes))
    ensures forall m :: 0 <= m < |nodes| && Indexable(entries, nodes[m]) ==> FileOf(nodes[m]) != f
  {
    var hits := Hits(entries, nodes);
    forall m | 0 <= m < |nodes| && Indexable(entries, nodes[m]) ensures FileOf(nodes[m]) != f {
      var i :| 0 <= i < |hits| && hits[i] == nodes[m];
      assert FileOf(hits[i]) in FilesOf(hits);
    }
  }

  /**
   * With the file set kept, the nodes indexed are exactly the first reference to each page, in
   * visiting order: every page is indexed by its first indexable reference and by no other.
   */
  lemma {:induction false} DedupHitsFirstReferences(entries: map<string, JarEntry>, nodes: seq<TocEntry>, n: nat)
    requires n <= |nodes|
    ensures DedupHits(entries, nodes[..n]) == FirstReferences(entries, nodes, n)
    decreases n
  {
    if n > 0 {
      var prefix := nodes[..n - 1];
      assert nodes[..n][..n - 1] == prefix;
      assert nodes[..n][n - 1] == nodes[n - 1];
      DedupHitsFirstReferences(entries, nodes, n - 1);
      var last := nodes[n - 1];
      DedupHitsCovers(entries, prefix);
      PageSeen(entries, prefix, FileOf(last));
      assert forall m :: 0 <= m < n - 1 ==> prefix[m] == nodes[m];
      assert FirstReference(entries, nodes, n - 1) <==>
        Indexable(entries, last) && FileOf(last) !in FilesOf(DedupHits(entries, prefix));
    }
  }

  function DocsOf(key: string, entries: map<string, JarEntry>, text: Bytes -> string, hits: seq<TocEntry>): (docs: seq<SearchDoc>)
    requires forall i :: 0 <= i < |hits| ==> Indexable(entries, hits[i])
    ensures |docs| == |hits|
    ensures forall i :: 0 <= i < |hits| ==> docs[i] == DocOf(key, entries, text, hits[i])
    decreases |hits|
  {
    if hits == [] then []
    else DocsOf(key, entries, text, hits[..|hits| - 1]) + [DocOf(key, entries, text, hits[|hits| - 1])]
  }

  /** What the explicit stack still holds, in the order the walk will visit it (the top is the last). */
  function StackOrder(stack: seq<seq<TocEntry>>): seq<TocEntry>
    decreases |stack|
  {
    if stack == [] then [] else PreOrderAll(stack[|stack| - 1]) + StackOrder(stack[..|stack| - 1])
  }

  /**
   * The indexing loop as written: a stack of sibling iterators (each the part of a sibling list not
   * yet visited), starting from the root alone. The set of indexed files is consulted but never
   * added to, so every reference to an existing page gives a document.
   */
  method IndexToc(key: string, entries: map<string, JarEntry>, text: Bytes -> string, toc: TocEntry)
    returns (docs: seq<SearchDoc>)
    ensures docs == DocsOf(key, entries, text, Hits(entries, PreOrder(toc)))
  {
    var files: set<string> := {};
    var stack: seq<seq<TocEntry>> := [[toc]];
    ghost var visited: seq<TocEntry> := [];
    docs := [];
    StartOrder(toc);
    while stack != []
      invariant visited + StackOrder(stack) == PreOrder(toc)
      invariant docs == DocsOf(key, entries, text, Hits(entries, visited))
      invariant files == {}
      decreases |StackOrder(stack)|, |stack|
    {
      ghost var whole := stack;
      var cur := stack[|stack| - 1];
      stack := stack[..|stack| - 1];
      if cur != [] {
        var entry := cur[0];
        stack := stack + [cur[1..]];
        if entry.children != [] {
          stack := stack + [entry.children];
        }
        Advance(toc, visited, whole, stack);
        VisitAsWritten(key, entries, text, visited, entry);
        visited := visited + [entry];
        if entry.href.None? {
          continue;
        }
        var file := CutAt(entry.href.value, '#');
        if file in files {
          continue;
        }
        if file !in entries {
          continue;
        }
        docs := docs + [SearchDoc(entry.title, key + "/" + entry.href.value, text(entries[file].data))];
      } else {
        PopEmpty(whole);
      }
    }
    assert visited + StackOrder(stack) == visited;
  }

  /** The indexing loop with the intended bookkeeping: each indexed page is recorded in the file set. */
  method IndexTocDeduplicated(key: string, entries: map<string, JarEntry>, text: Bytes -> string, toc: TocEntry)
    returns (docs: seq<SearchDoc>)
    ensures docs == DocsOf(key, entries, text, DedupHits(entries, PreOrder(toc)))
  {
    var files: set<string> := {};
    var stack: seq<seq<TocEntry>> := [[toc]];
    ghost var visited: seq<TocEntry> := [];
    docs := [];
    StartOrder(toc);
    while stack != []
      invariant visited + StackOrder(stack) == PreOrder(toc)
      invariant docs == DocsOf(key, entries, text, DedupHits(entries, visited))
      invariant files == FilesOf(DedupHits(entries, visited))
      decreases |StackOrder(stack)|, |stack|
    {
      ghost var whole := stack;
      var cur := stack[|stack| - 1];
      stack := stack[..|stack| - 1];
      if cur != [] {
        var entry := cur[0];
        stack := stack + [cur[1..]];
        if entry.children != [] {
          stack := stack + [entry.children];
        }
        Advance(toc, visited, whole, stack);
        VisitDeduplicated(key, entries, text, visited, entry);
        visited := visited + [entry];
        if entry.href.None? {
          continue;
        }
        var file := CutAt(entry.href.value, '#');
        if file in files {
          continue;
        }
        if file !in entries {
          continue;
        }
        docs := docs + [SearchDoc(entry.title, key + "/" + entry.href.value, text(entries[file].data))];
        files := files + {file};
      } else {
        PopEmpty(whole);
      }
    }
    assert visited + StackOrder(stack) == visited;
  }

  lemma StartOrder(toc: TocEntry)
    ensures StackOrder([[toc]]) == PreOrder(toc)
  {
    assert PreOrderAll([toc]) == PreOrder(toc) + PreOrderAll([toc][1..]);
  }

  /** Pushing an iterator puts its nodes first in the visiting order. */
  lemma StackOrderPush(below: seq<seq<TocEntry>>, top: seq<TocEntry>)
    ensures StackOrder(below + [top]) == PreOrderAll(top) + StackOrder(below)
  {
    assert (below + [top])[..|below|] == below;
  }

  /** Visiting a leaf at the head of the top iterator leaves the rest of that iterator on top. */
  lemma PopLeaf(below: seq<seq<TocEntry>>, cur: seq<TocEntry>)
    requires cur != [] && cur[0].children == []
    ensures [cur[0]] + StackOrder(below + [cur[1..]]) == PreOrderAll(cur) + StackOrder(below)
  {
    StackOrderPush(below, cur[1..]);
    assert PreOrder(cur[0]) == [cur[0]] + PreOrderAll([]);
    assert PreOrderAll(cur) == PreOrder(cur[0]) + PreOrderAll(cur[1..]);
  }

  /** Visiting a node with children pushes them above the rest of its sibling list. */
  lemma PopParent(below: seq<seq<TocEntry>>, cur: seq<TocEntry>)
    requires cur != [] && cur[0].children != []
    ensures [cur[0]] + StackOrder(below + [cur[1..]] + [cur[0].children]) == PreOrderAll(cur) + StackOrder(below)
  {
    var head := cur[0];
    var kids := PreOrderAll(head.children);
    var siblings := PreOrderAll(cur[1..]);
    var lower := StackOrder(below);
    StackOrderPush(below, cur[1..]);
    StackOrderPush(below + [cur[1..]], head.children);
    assert PreOrderAll(cur) == PreOrder(head) + siblings;
    assert PreOrder(head) == [head] + kids;
    Associate(head, kids, siblings, lower);
  }

  /** One visit: the walk's account of visited and still stacked nodes stays the pre-order. */
  lemma Advance(toc: TocEntry, visited: seq<TocEntry>, whole: seq<seq<TocEntry>>, stack: seq<seq<TocEntry>>)
    requires whole != [] && whole[|whole| - 1] != []
    requires visited + StackOrder(whole) == PreOrder(toc)
    requires var cur := whole[|whole| - 1];
      var next := whole[..|whole| - 1] + [cur[1..]];
      stack == if cur[0].children != [] then next + [cur[0].children] else next
    ensures visited + [whole[|whole| - 1][0]] + StackOrder(stack) == PreOrder(toc)
    ensures |StackOrder(stack)| < |StackOrder(whole)|
  {
    var cur := whole[|whole| - 1];
    var below := whole[..|whole| - 1];
    assert StackOrder(whole) == PreOrderAll(cur) + StackOrder(below);
    if cur[0].children != [] {
      PopParent(below, cur);
    } else {
      PopLeaf(below, cur);
    }
    assert StackOrder(whole) == [cur[0]] + StackOrder(stack);
    Shift(visited, cur[0], StackOrder(stack));
  }

  /** An exhausted iterator is dropped without changing the visiting order. */
  lemma PopEmpty(whole: seq<seq<TocEntry>>)
    requires whole != [] && whole[|whole| - 1] == []
    ensures StackOrder(whole[..|whole| - 1]) == StackOrder(whole)
  {
    assert StackOrder(whole) == PreOrderAll([]) + StackOrder(whole[..|whole| - 1]);
  }

  lemma Shift<T>(a: seq<T>, x: T, b: seq<T>)
    ensures a + [x] + b == a + ([x] + b)
  {
  }

  lemma Associate<T>(x: T, a: seq<T>, b: seq<T>, c: seq<T>)
    ensures [x] + (a + (b + c)) == [x] + a + b + c
  {
  }

  /** Visiting one more node as written adds its document exactly when the node is indexable. */
  lemma VisitAsWritten(key: string, entries: map<string, JarEntry>, text: Bytes -> string, visited: seq<TocEntry>, e: TocEntry)
    ensures DocsOf(key, entries, text, Hits(entries, visited + [e]))
         == DocsOf(key, entries, text, Hits(entries, visited)) + (if Indexable(entries, e) then [DocOf(key, entries, text, e)] else [])
  {
    var nodes := visited + [e];
    assert nodes[..|nodes| - 1] == visited;
    var hits := Hits(entries, visited);
    if Indexable(entries, e) {
      assert (hits + [e])[..|hits|] == hits;
    } else {
      assert hits + [] == hits;
    }
  }

  /** Visiting one more node with the file set adds its document when its page is new and present. */
  lemma VisitDeduplicated(key: string, entries: map<string, JarEntry>, text: Bytes -> string, visited: seq<TocEntry>, e: TocEntry)
    ensures var prev := DedupHits(entries, visited);
      var isNew := Indexable(entries, e) && FileOf(e) !in FilesOf(prev);
      && DocsOf(key, entries, text, DedupHits(entries, visited + [e]))
         == DocsOf(key, entries, text, prev) + (if isNew then [DocOf(key, entries, text, e)] else [])
      && FilesOf(DedupHits(entries, visited + [e])) == FilesOf(prev) + (if isNew then {FileOf(e)} else {})
  {
    var nodes := visited + [e];
    assert nodes[..|nodes| - 1] == visited;
    var prev := DedupHits(entries, visited);
    if Indexable(entries, e) && FileOf(e) !in FilesOf(prev) {
      assert (prev + [e])[..|prev|] == prev;
      FilesOfSnoc(prev, e);
    }
  }
  /** No document is emitted for nodes without href or whose page is not in the jar ... */
  lemma {:induction false} HitsAreIndexableNodes(entries: map<string, JarEntry>, nodes: seq<TocEntry>)
    ensures forall h :: h in Hits(entries, nodes) ==> h in nodes && Indexable(entries, h)
    ensures forall i :: 0 <= i < |nodes| && Indexable(entries, nodes[i]) ==> nodes[i] in Hits(entries, nodes)
    decreases |nodes|
  {
    if nodes != [] {
      var init := nodes[..|nodes| - 1];
      HitsAreIndexableNodes(entries, init);
      forall i | 0 <= i < |nodes| && Indexable(entries, nodes[i]) ensures nodes[i] in Hits(entries, nodes) {
        if i < |init| {
          assert nodes[i] == init[i];
        }
      }
    }
  }

  /** ... and, as written, two references to one page index that page twice. */
  lemma DuplicatePageIndexedTwice()
    ensures var page := TocEntry(Some("FAQ"), Some("faq.html"), [TocEntry(Some("Section 2"), Some("faq.html#section2"), [])]);
      var entries := map["faq.html" := JarEntry([], 0, 0)];
      && |Hits(entries, PreOrder(page))| == 2
      && |DedupHits(entries, PreOrder(page))| == 1
  {
    var child := TocEntry(Some("Section 2"), Some("faq.html#section2"), []);
    var page := TocEntry(Some("FAQ"), Some("faq.html"), [child]);
    var entries := map["faq.html" := JarEntry([], 0, 0)];
    SamePage();
    assert PreOrder(child) == [child];
    assert PreOrderAll([child]) == PreOrder(child) + PreOrderAll([]);
    assert PreOrder(page) == [page, child];
    assert [page, child][..1] == [page];
    assert Hits(entries, [page]) == [page];
    assert FilesOf([page]) == {"faq.html"};
    assert DedupHits(entries, [page]) == [page];
  }

  lemma SamePage()
    ensures CutAt("faq.html", '#') == "faq.html"
    ensures CutAt("faq.html#section2", '#') == "faq.html"
  {
    var s := "faq.html#section2";
    var r := CutAt(s, '#');
    assert s[8] == '#';
    assert forall i :: 0 <= i < 8 ==> s[i] == "faq.html"[i];
    assert r != s by { assert '#' in s; }
    assert |r| == 8;
  }

  /** The walk visits every node once: as many visits as the tree has nodes. */
  lemma {:induction false} PreOrderSize(t: TocEntry)
    ensures |PreOrder(t)| == Size(t)
    decreases t, 1
  {
    PreOrderAllSize(t.children);
  }

  lemma {:induction false} PreOrderAllSize(ts: seq<TocEntry>)
    ensures |PreOrderAll(ts)| == SizeAll(ts)
    decreases ts, 0
  {
    if ts != [] {
      PreOrderSize(ts[0]);
      PreOrderAllSize(ts[1..]);
    }
  }

  /** The walk visits the root first and then each child's subtree in the order of the children. */
  lemma {:induction false} PreOrderOfChildren(t: TocEntry, i: nat)
    requires i < |t.children|
    ensures var before := PreOrderAll(t.children[..i]);
      PreOrder(t) == [t] + before + PreOrder(t.children[i]) + PreOrderAll(t.children[i + 1..])
  {
    PreOrderAllSplit(t.children, i);
    assert t.children[i..][0] == t.children[i];
    assert t.children[i..][1..] == t.children[i + 1..];
  }

  lemma {:induction false} PreOrderAllSplit(ts: seq<TocEntry>, i: nat)
    requires i <= |ts|
    ensures PreOrderAll(ts) == PreOrderAll(ts[..i]) + PreOrderAll(ts[i..])
    decreases i
  {
    if i == 0 {
      assert ts[..0] == [] && ts[0..] == ts;
    } else {
      PreOrderAllSplit(ts[1..], i - 1);
      assert ts[1..][..i - 1] == ts[..i][1..];
      assert ts[1..][i - 1..] == ts[i..];
      assert ts[..i][0] == ts[0];
    }
  }

  // ------------------------------------------------------------------------------------------
  // Redirect and alias tables
  // ------------------------------------------------------------------------------------------

  /**
   * A redirect property file applied to a table, entry by entry: an entry with a blank value is
   * ignored, any other maps its slash-trimmed key to its slash-trimmed value.
   */
  function WithRedirects(table: map<string, string>, props: seq<(string, string)>): map<string, string>
    decreases |props|
  {
    if props == [] then table
    else
      var t := WithRedirects(table, props[..|props| - 1]);
      var (k, v) := props[|props| - 1];
      if IsBlank(v) then t else t[TrimSlashes(k) := TrimSlashes(v)]
  }

  /** A property entry that is not blank sets the table entry for its trimmed key. */
  predicate Defines(prop: (string, string), src: string) {
    !IsBlank(prop.1) && TrimSlashes(prop.0) == src
  }

  /** The last entry of a property file that sets src, or -1 when none does. */
  function LastDefining(props: seq<(string, string)>, src: string): (i: int)
    ensures -1 <= i < |props|
    ensures i >= 0 ==> Defines(props[i], src)
    ensures forall j :: i < j < |props| ==> !Defines(props[j], src)
    decreases |props|
  {
    if props == [] then -1
    else if Defines(props[|props| - 1], src) then |props| - 1
    else
      var init := props[..|props| - 1];
      var i := LastDefining(init, src);
      assert forall j :: i < j < |init| ==> init[j] == props[j];
      i
  }

  /**
   * What a property file does to a table: a source some entry sets maps to the trimmed value of the
   * last such entry, whatever came before; every other source keeps what the table had.
   */
  lemma {:induction false} RedirectTable(table: map<string, string>, props: seq<(string, string)>, src: string)
    ensures var i := LastDefining(props, src);
      var t := WithRedirects(table, props);
      && (i >= 0 ==> src in t && t[src] == TrimSlashes(props[i].1))
      && (i < 0 ==> (src in t <==> src in table) && (src in t ==> t[src] == table[src]))
    decreases |props|
  {
    if props != [] {
      var init := props[..|props| - 1];
      RedirectTable(table, init, src);
      if !Defines(props[|props| - 1], src) {
        assert LastDefining(props, src) == LastDefining(init, src);
        var i := LastDefining(init, src);
        if i >= 0 {
          assert init[i] == props[i];
        }
      }
    }
  }

  /** The builder loop for one property file. */
  method BuildTable(table: map<string, string>, props: seq<(string, string)>) returns (t: map<string, string>)
    ensures t == WithRedirects(table, props)
  {
    t := table;
    for n := 0 to |props|
      invariant t == WithRedirects(table, props[..n])
    {
      assert props[..n + 1][..n] == props[..n];
      var (key, value) := props[n];
      if IsNotBlank(Some(value)) {
        var src := RemoveEnd(RemoveStart(key, "/"), "/");
        var dst := RemoveEnd(RemoveStart(value, "/"), "/");
        t := t[src := dst];
      }
    }
    assert props[..|props|] == props;
  }

  // ------------------------------------------------------------------------------------------
  // sequence.lst
  // ------------------------------------------------------------------------------------------

  /** A line of sequence.lst cut at its first '#'; kept if not blank and a valid regular expression. */
  function PatternOf(line: string, compiles: string -> bool): (p: Option<string>)
    ensures p.Some? ==> p.value == CutAt(line, '#') && '#' !in p.value && !IsBlank(p.value) && compiles(p.value)
    ensures '#' !in line && !IsBlank(line) && compiles(line) ==> p == Some(line)
    ensures p.None? <==> IsBlank(CutAt(line, '#')) || !compiles(CutAt(line, '#'))
  {
    var cut := CutAt(line, '#');
    // a line cut at its first '#' cannot still start with '#' unless it is empty, which is blank
    if StartsWith(cut, "#") || IsBlank(cut) then None
    else if compiles(cut) then Some(cut)
    else None
  }

  function Patterns(lines: seq<string>, compiles: string -> bool): (ps: seq<string>)
    ensures |ps| <= |lines|
    ensures forall i :: 0 <= i < |ps| ==> !IsBlank(ps[i]) && '#' !in ps[i] && compiles(ps[i])
    decreases |lines|
  {
    if lines == [] then []
    else
      var init := Patterns(lines[..|lines| - 1], compiles);
      match PatternOf(lines[|lines| - 1], compiles)
      case None => init
      case Some(p) => init + [p]
  }

  /** The sequence.lst reading loop. */
  method ParseSequence(lines: seq<string>, compiles: string -> bool) returns (sequence: seq<string>)
    ensures sequence == Patterns(lines, compiles)
  {
    sequence := [];
    for n := 0 to |lines|
      invariant sequence == Patterns(lines[..n], compiles)
    {
      assert lines[..n + 1][..n] == lines[..n];
      var line := lines[n];
      var hash := IndexOf(line, '#', 0);
      if hash != -1 {
        line := line[..hash];
      }
      if StartsWith(line, "#") || IsBlank(line) {
        continue;
      }
      if !compiles(line) {
        continue;
      }
      sequence := sequence + [line];
    }
    assert lines[..|lines|] == lines;
  }

  /** Every line that passes the filter gives its pattern, and every pattern comes from such a line. */
  lemma {:induction false} PatternsComplete(lines: seq<string>, compiles: string -> bool, p: string)
    ensures p in Patterns(lines, compiles) <==> exists i :: 0 <= i < |lines| && PatternOf(lines[i], compiles) == Some(p)
    decreases |lines|
  {
    if lines != [] {
      var init := lines[..|lines| - 1];
      PatternsComplete(init, compiles, p);
      assert forall i :: 0 <= i < |init| ==> init[i] == lines[i];
      if exists i :: 0 <= i < |lines| && PatternOf(lines[i], compiles) == Some(p) {
        var i :| 0 <= i < |lines| && PatternOf(lines[i], compiles) == Some(p);
        if i < |init| {
          assert PatternOf(init[i], compiles) == Some(p);
        }
      }
    }
  }

  /** The patterns keep the order of their lines: one more line appends its pattern, if any, at the end. */
  lemma PatternsSnoc(lines: seq<string>, line: string, compiles: string -> bool)
    ensures Patterns(lines + [line], compiles)
         == Patterns(lines, compiles) + (match PatternOf(line, compiles) case Some(p) => [p] case None => [])
  {
    assert (lines + [line])[..|lines|] == lines;
  }

  /** getSequenceOrder: the position of the first pattern the key matches, or the number of patterns. */
  method GetSequenceOrder(sequence: Option<seq<string>>, matches: (string, string) -> bool, key: string)
    returns (i: nat)
    requires sequence.Some?
    ensures i <= |sequence.value|
    ensures i < |sequence.value| ==> matches(sequence.value[i], key)
    ensures forall j :: 0 <= j < i ==> !matches(sequence.value[j], key)
  {
    i := 0;
    while i < |sequence.value|
      invariant i <= |sequence.value|
      invariant forall j :: 0 <= j < i ==> !matches(sequence.value[j], key)
    {
      if matches(sequence.value[i], key) {
        return;
      }
      i := i + 1;
    }
  }

  // ------------------------------------------------------------------------------------------
  // context-param.* layering
  // ------------------------------------------------------------------------------------------

  /** A properties layer applied to the parameters: a blank value removes the parameter, any other sets it. */
  function Layer(params: map<string, string>, props: map<string, string>): (r: map<string, string>)
    ensures forall k :: k in props ==> (k in r <==> !IsBlank(props[k])) && (k in r ==> r[k] == props[k])
    ensures forall k :: k !in props ==> (k in r <==> k in params) && (k in r ==> r[k] == params[k])
  {
    map k | k in params.Keys + props.Keys && !(k in props && IsBlank(props[k])) :: if k in props then props[k] else params[k]
  }

  /**
   * The parameters after startup: the global defaults overlaid by the webapp defaults form one
   * layer, then every init parameter is set as it is, then the override layer is applied.
   */
  function ContextParams(params: map<string, string>, env: Environment): map<string, string> {
    Layer(Layer(params, env.globalDefaults + env.webappDefaults) + env.initParameters, env.overrides)
  }

  /** Which layer decides a parameter. */
  lemma ParamPrecedence(params: map<string, string>, env: Environment, name: string)
    ensures var r := ContextParams(params, env);
      && (name in env.overrides ==> (name in r <==> !IsBlank(env.overrides[name])) && (name in r ==> r[name] == env.overrides[name]))
      && (name !in env.overrides && name in env.initParameters ==> name in r && r[name] == env.initParameters[name])
      && (name !in env.overrides && name !in env.initParameters && name in env.webappDefaults ==>
            (name in r <==> !IsBlank(env.webappDefaults[name])) && (name in r ==> r[name] == env.webappDefaults[name]))
      && (name !in env.overrides && name !in env.initParameters && name !in env.webappDefaults && name in env.globalDefaults ==>
            (name in r <==> !IsBlank(env.globalDefaults[name])) && (name in r ==> r[name] == env.globalDefaults[name]))
      && (name !in env.overrides && name !in env.initParameters && name !in env.webappDefaults && name !in env.globalDefaults ==>
            (name in r <==> name in params) && (name in r ==> r[name] == params[name]))
  {
    var defaults := env.globalDefaults + env.webappDefaults;
    if name !in env.overrides && name !in env.initParameters && name !in env.webappDefaults && name in env.globalDefaults {
      assert defaults[name] == env.globalDefaults[name];
    }
  }

  // ------------------------------------------------------------------------------------------
  // The registry build, as functions
  // ------------------------------------------------------------------------------------------

  /** The registry after one jar: its alias, its contents, its keywords and its search documents. */
  function AddBundle(reg: Registry, path: string, a: Archive, r: Readers, indexing: bool): (next: Registry)
    requires StartsWith(path, BundlePrefix) && EndsWith(path, ".jar")
    requires reg.contents.Valid()
    ensures next.contents.Valid()
    ensures next.redirects == reg.redirects && next.aliases == reg.aliases && next.sequence == reg.sequence
    ensures next.params == reg.params && next.searchAvailable == reg.searchAvailable
  {
    var withAlias := if a.symbolicName.Some? then reg.(bundles := reg.bundles[BundleKey(path, a) := JarStem(path)]) else reg;
    AddContents(withAlias, BundleKey(path, a), a, r, indexing)
  }

  /** What a jar adds under its key once its alias is recorded: its contents, keywords and documents. */
  function AddContents(reg: Registry, key: string, a: Archive, r: Readers, indexing: bool): (next: Registry)
    requires reg.contents.Valid()
    ensures next.contents.Valid()
    ensures next.bundles == reg.bundles
    ensures next.redirects == reg.redirects && next.aliases == reg.aliases && next.sequence == reg.sequence
    ensures next.params == reg.params && next.searchAvailable == reg.searchAvailable
    ensures LoadToc(a, r).Failure? ==> next == reg
    ensures LoadToc(a, r).Success? ==> next.contents == reg.contents.Put(key, LoadToc(a, r).value.1)
    ensures LoadToc(a, r).Success? && KeywordsOf(key, a, LoadToc(a, r).value.0, r).Keywords? ==>
      next.keywords == reg.keywords + KeywordsOf(key, a, LoadToc(a, r).value.0, r).entries &&
      next.documents == reg.documents +
        (if indexing then DocsOf(key, a.entries, r.text, Hits(a.entries, PreOrder(LoadToc(a, r).value.1))) else [])
    ensures !(LoadToc(a, r).Success? && KeywordsOf(key, a, LoadToc(a, r).value.0, r).Keywords?) ==>
      next.keywords == reg.keywords && next.documents == reg.documents
  {
    match LoadToc(a, r)
    case Failure(_) => reg
    case Success((plugin, toc)) =>
      var withToc := reg.(contents := reg.contents.Put(key, toc));
      match KeywordsOf(key, a, plugin, r)
      case Aborted => withToc
      case Keywords(k) =>
        var withKeywords := withToc.(keywords := withToc.keywords + k);
        if indexing then withKeywords.(documents := withKeywords.documents + DocsOf(key, a.entries, r.text, Hits(a.entries, PreOrder(toc))))
        else withKeywords
  }

  /** Every path the bundle directory lists starts with the directory. */
  predicate Listed(paths: seq<string>) {
    forall i :: 0 <= i < |paths| ==> StartsWith(paths[i], BundlePrefix)
  }

  /** One listed path: a jar, one of the two redirect files, sequence.lst, or something ignored. */
  function PathStep(reg: Registry, path: string, env: Environment): (next: Registry)
    requires StartsWith(path, BundlePrefix)
    requires reg.contents.Valid()
    ensures next.contents.Valid()
    ensures next.params == reg.params && next.searchAvailable == reg.searchAvailable
  {
    if EndsWith(path, ".jar") then
      if path in env.jars then AddBundle(reg, path, env.jars[path], env.readers, env.indexWriter) else reg
    else if path == BundlePrefix + "permanent-redirect.properties" then reg.(redirects := WithRedirects(reg.redirects, env.permanent))
    else if path == BundlePrefix + "temporary-redirect.properties" then reg.(aliases := WithRedirects(reg.aliases, env.temporary))
    else if path == BundlePrefix + "sequence.lst" then reg.(sequence := Some(Patterns(env.sequenceLines, env.readers.compiles)))
    else reg
  }

  function LoadPaths(reg: Registry, paths: seq<string>, env: Environment): (next: Registry)
    requires Listed(paths)
    requires reg.contents.Valid()
    ensures next.contents.Valid()
    decreases |paths|
  {
    if paths == [] then reg
    else PathStep(LoadPaths(reg, paths[..|paths| - 1], env), paths[|paths| - 1], env)
  }

  /** The bundle directory's files never touch the parameters or the search index's availability. */
  lemma {:induction false} LoadPathsKeepsSettings(reg: Registry, paths: seq<string>, env: Environment)
    requires Listed(paths) && reg.contents.Valid()
    ensures LoadPaths(reg, paths, env).params == reg.params
    ensures LoadPaths(reg, paths, env).searchAvailable == reg.searchAvailable
    decreases |paths|
  {
    if paths != [] {
      var init := paths[..|paths| - 1];
      LoadPathsKeepsSettings(reg, init, env);
    }
  }

  /**
   * The attributes contextInitialized leaves: fresh bundle, redirect, contents and keyword
   * tables; the search index only when the index writer could be created; sequence only when
   * sequence.lst is listed; the layered parameters over those already set.
   */
  function Initialized(before: Registry, env: Environment): (reg: Registry)
    requires env.paths.Some? ==> Listed(env.paths.value)
  {
    var start := Fresh(before);
    var loaded := if env.paths.Some? then LoadPaths(start, env.paths.value, env) else start;
    loaded.(searchAvailable := env.indexWriter || before.searchAvailable, params := ContextParams(before.params, env))
  }

  /** The new, empty tables the listener starts from; the attributes it may leave alone are kept. */
  function Fresh(before: Registry): (start: Registry)
    ensures start.contents.Valid()
  {
    Registry(map[], map[], map[], Empty(), [], [], before.searchAvailable, before.sequence, before.params)
  }

  /** A jar whose table of contents is rejected leaves everything but its alias as it was. */
  lemma SkippedBundleOnlyRecordsAlias(reg: Registry, path: string, a: Archive, r: Readers, indexing: bool)
    requires StartsWith(path, BundlePrefix) && EndsWith(path, ".jar")
    requires reg.contents.Valid()
    requires LoadToc(a, r).Failure?
    ensures AddBundle(reg, path, a, r, indexing).(bundles := reg.bundles) == reg
    ensures a.symbolicName.None? ==> AddBundle(reg, path, a, r, indexing) == reg
  {
  }

  /** Once its table of contents is read, a jar's contents stay whatever its index file holds. */
  lemma IndexNeverRemovesToc(reg: Registry, path: string, a: Archive, r: Readers, indexing: bool, plugin: Plugin, toc: TocEntry)
    requires StartsWith(path, BundlePrefix) && EndsWith(path, ".jar")
    requires reg.contents.Valid()
    requires TocReadable(a, r, plugin, toc)
    ensures var next := AddBundle(reg, path, a, r, indexing);
      && next.contents == reg.contents.Put(BundleKey(path, a), toc)
      && (KeywordsOf(BundleKey(path, a), a, plugin, r) == Keywords([]) ==> next.keywords == reg.keywords)
  {
    var key := BundleKey(path, a);
    var withAlias := if a.symbolicName.Some? then reg.(bundles := reg.bundles[key := JarStem(path)]) else reg;
    assert AddBundle(reg, path, a, r, indexing) == AddContents(withAlias, key, a, r, indexing);
    LoadTocComplete(a, r, plugin, toc);
    assert withAlias.contents == reg.contents && withAlias.keywords == reg.keywords;
  }

  /** A jar touches no other bundle's contents. */
  lemma OtherBundlesUnaffected(reg: Registry, path: string, a: Archive, r: Readers, indexing: bool, other: string)
    requires StartsWith(path, BundlePrefix) && EndsWith(path, ".jar")
    requires reg.contents.Valid()
    requires other != BundleKey(path, a)
    ensures var next := AddBundle(reg, path, a, r, indexing);
      && (other in next.contents.values <==> other in reg.contents.values)
      && (other in reg.contents.values ==> next.contents.values[other] == reg.contents.values[other])
  {
    var res := LoadToc(a, r);
    if res.Success? {
      assert AddBundle(reg, path, a, r, indexing).contents == reg.contents.Put(BundleKey(path, a), res.value.1);
    }
  }
  // ------------------------------------------------------------------------------------------
  // The listener itself, over the servlet context's attributes
  // ------------------------------------------------------------------------------------------

  /** Applying a layer one key at a time builds the same parameters as applying it at once. */
  lemma LayerOneMore(params: map<string, string>, props: map<string, string>, done: set<string>, k: string)
    requires done <= props.Keys && k in props && k !in done
    ensures var before := Layer(params, map d | d in props && d in done :: props[d]);
      var after := Layer(params, map d | d in props && d in done + {k} :: props[d]);
      after == if IsBlank(props[k]) then before - {k} else before[k := props[k]]
  {
  }

  /** The listener's skip chain for one jar, up to and including the parse of its table of contents. */
  method ReadBundleToc(a: Archive, r: Readers) returns (res: Result<(Plugin, TocEntry), Skip>)
    ensures res == LoadToc(a, r)
  {
    if "plugin.xml" !in a.entries {
      return Failure(NoPluginXml);
    }
    var plugin := r.plugin(a.entries["plugin.xml"].data);
    if plugin.None? {
      return Failure(PluginUnreadable);
    }
    var tocFile := ExtensionFile(plugin.value, TocPoint, "toc");
    if tocFile.None? {
      return Failure(NoTocExtension);
    }
    if tocFile.value !in a.entries {
      return Failure(MissingToc);
    }
    var events := r.tocEvents(a.entries[tocFile.value].data);
    if events.None? {
      return Failure(TocUnreadable("XMLStreamException"));
    }
    var toc := ReadEvents(events.value);
    if toc.Failure? {
      return Failure(TocUnreadable(toc.error));
    }
    return Success((plugin.value, toc.value));
  }

  /** The index file handling for a jar whose table of contents was added. */
  method ReadKeywords(key: string, a: Archive, plugin: Plugin, r: Readers) returns (k: Keywords)
    ensures k == KeywordsOf(key, a, plugin, r)
  {
    k := Keywords([]);
    var indexFile := ExtensionFile(plugin, IndexPoint, "index");
    if indexFile.Some? {
      if indexFile.value in a.entries {
        match r.index(key, a.entries[indexFile.value].data) {
          case IndexRead(entries) => k := Keywords(entries);
          case IndexMalformed =>
          case IndexStreamError => k := Aborted;
        }
      }
    }
  }

  class Webapp {
    var bundles: map<string, string>
    var redirects: map<string, string>
    var aliases: map<string, string>
    var contents: LinkedMap<TocEntry>
    var keywords: seq<IndexEntry>
    var documents: seq<SearchDoc>
    var searchAvailable: bool
    var sequence: Option<seq<string>>
    var params: map<string, string>

    ghost predicate Valid()
      reads this
    {
      contents.Valid()
    }

    /** The attributes as a registry value. */
    function Snapshot(): Registry
      reads this
    {
      Registry(bundles, redirects, aliases, contents, keywords, documents, searchAvailable, sequence, params)
    }

    /** A servlet context with no attributes but the given parameters. */
    constructor(params: map<string, string>)
      ensures Valid()
      ensures Snapshot() == Registry(map[], map[], map[], Empty(), [], [], false, None, params)
    {
      bundles := map[];
      redirects := map[];
      aliases := map[];
      contents := Empty();
      keywords := [];
      documents := [];
      searchAvailable := false;
      sequence := None;
      this.params := params;
    }

    /** The body of the listener's loop for a path ending in ".jar" that opened as a jar. */
    method LoadBundle(path: string, a: Archive, r: Readers, indexing: bool)
      requires Valid()
      requires StartsWith(path, BundlePrefix) && EndsWith(path, ".jar")
      modifies this
      ensures Valid()
      ensures Snapshot() == AddBundle(old(Snapshot()), path, a, r, indexing)
    {
      var key := JarStem(path);
      if a.symbolicName.Some? {
        var symbolicName := a.symbolicName.value;
        var i := IndexOf(symbolicName, ';', 0);
        if i != -1 {
          symbolicName := symbolicName[..i];
        }
        bundles := bundles[symbolicName := key];
        key := symbolicName;
      }
      AddBundleContents(key, a, r, indexing);
    }

    /** The rest of the loop body: the skip chain, then contents, keywords and search documents. */
    method AddBundleContents(key: string, a: Archive, r: Readers, indexing: bool)
      requires Valid()
      modifies this
      ensures Valid()
      ensures Snapshot() == AddContents(old(Snapshot()), key, a, r, indexing)
    {
      var loaded := ReadBundleToc(a, r);
      if loaded.Failure? {
        return;
      }
      var (plugin, toc) := loaded.value;
      contents := contents.Put(key, toc);
      var found := ReadKeywords(key, a, plugin, r);
      if found.Aborted? {
        return;
      }
      keywords := keywords + found.entries;
      if indexing {
        var docs := IndexToc(key, a.entries, r.text, toc);
        documents := documents + docs;
      }
    }

    /** The loop over one properties layer: a blank value removes the parameter, any other sets it. */
    method ApplyLayer(props: map<string, string>)
      modifies this
      ensures params == Layer(old(params), props)
      ensures Snapshot() == old(Snapshot()).(params := params)
    {
      var keys := props.Keys;
      ghost var done: set<string> := {};
      assert (map d | d in props && d in done :: props[d]) == map[];
      while keys != {}
        invariant keys + done == props.Keys && keys !! done
        invariant params == Layer(old(params), map d | d in props && d in done :: props[d])
        invariant Snapshot() == old(Snapshot()).(params := params)
        decreases keys
      {
        var key :| key in keys;
        LayerOneMore(old(params), props, done, key);
        if IsBlank(props[key]) {
          params := params - {key};
        } else {
          params := params[key := props[key]];
        }
        keys := keys - {key};
        done := done + {key};
      }
      assert (map d | d in props && d in done :: props[d]) == props;
    }

    /** The loop over the init parameters: each one is set as it is. */
    method SetInitParameters(init: map<string, string>)
      modifies this
      ensures params == old(params) + init
      ensures Snapshot() == old(Snapshot()).(params := params)
    {
      var names := init.Keys;
      while names != {}
        invariant names <= init.Keys
        invariant forall k :: k in params <==> k in old(params) || (k in init && k !in names)
        invariant forall k :: k in params ==> params[k] == if k in init && k !in names then init[k] else old(params)[k]
        invariant Snapshot() == old(Snapshot()).(params := params)
        decreases names
      {
        var name :| name in names;
        params := params[name := init[name]];
        names := names - {name};
      }
    }

    /** The body of the listener's loop over the listed paths. */
    method LoadPath(path: string, env: Environment)
      requires Valid() && StartsWith(path, BundlePrefix)
      modifies this
      ensures Valid()
      ensures Snapshot() == PathStep(old(Snapshot()), path, env)
    {
      if EndsWith(path, ".jar") {
        if path in env.jars {
          LoadBundle(path, env.jars[path], env.readers, env.indexWriter);
        }
      } else if path == BundlePrefix + "permanent-redirect.properties" {
        redirects := BuildTable(redirects, env.permanent);
      } else if path == BundlePrefix + "temporary-redirect.properties" {
        aliases := BuildTable(aliases, env.temporary);
      } else if path == BundlePrefix + "sequence.lst" {
        var patterns := ParseSequence(env.sequenceLines, env.readers.compiles);
        sequence := Some(patterns);
      }
    }

    /** The listener's local tables, created empty. */
    method Reset()
      modifies this
      ensures Valid()
      ensures Snapshot() == Fresh(old(Snapshot()))
    {
      bundles := map[];
      redirects := map[];
      aliases := map[];
      contents := Empty();
      keywords := [];
      documents := [];
    }

    /** The listener's loop over the listed paths. */
    method LoadBundleDirectory(paths: seq<string>, env: Environment)
      requires Valid() && Listed(paths)
      modifies this
      ensures Valid()
      ensures Snapshot() == LoadPaths(old(Snapshot()), paths, env)
    {
      for n := 0 to |paths|
        invariant Valid()
        invariant Snapshot() == LoadPaths(old(Snapshot()), paths[..n], env)
      {
        assert paths[..n + 1][..n] == paths[..n];
        LoadPath(paths[n], env);
      }
      assert paths[..|paths|] == paths;
    }

    /** The three parameter layers: the merged defaults, the init parameters, the overrides. */
    method LayerParameters(env: Environment)
      modifies this
      ensures params == ContextParams(old(params), env)
      ensures Snapshot() == old(Snapshot()).(params := params)
    {
      ApplyLayer(env.globalDefaults + env.webappDefaults);
      SetInitParameters(env.initParameters);
      ApplyLayer(env.overrides);
    }

    /** contextInitialized: the registry build over the listed paths, then the parameter layers. */
    method ContextInitialized(env: Environment)
      requires env.paths.Some? ==> Listed(env.paths.value)
      modifies this
      ensures Valid()
      ensures Snapshot() == Initialized(old(Snapshot()), env)
    {
      ghost var before := Snapshot();
      Reset();
      ghost var start := Snapshot();
      if env.paths.Some? {
        LoadBundleDirectory(env.paths.value, env);
        LoadPathsKeepsSettings(start, env.paths.value, env);
      }
      ghost var loaded := Snapshot();
      assert loaded == if env.paths.Some? then LoadPaths(start, env.paths.value, env) else start;
      if env.indexWriter {
        searchAvailable := true;
      }
      assert params == before.params;
      LayerParameters(env);
    }
  }
}
