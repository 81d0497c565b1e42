# Tobar Segais bundle registry and path resolution, in Dafny

Tobar Segais is a web application that serves Eclipse-help style documentation bundles. Each
bundle is a jar under `/WEB-INF/bundles`. This project models four parts of it and proves
properties of that model:

- **Startup.** The context listener builds the registry at startup:
  - the bundle key from the jar name or the manifest's `Bundle-SymbolicName`;
  - the chain of checks that decides whether a bundle's table of contents is added;
  - the keyword index;
  - the search documents, produced by an explicit-stack pre-order walk over the table of contents;
  - the permanent and temporary redirect tables;
  - the `sequence.lst` patterns and `getSequenceOrder`;
  - the layered `context-param.*` parameters.
- **Content servlet.** It walks the request path `/` by `/`. The first candidate key that is a
  permanent redirect (301), a temporary redirect (302), or a jar holding the named entry decides
  the response. Otherwise the answer is 404. The servlet also chooses the Content-Length and
  Cache-Control headers. `getLastModified` makes the same walk over the jars alone.
- **Docs servlet.** It resolves topic requests to the first bundle that knows the topic, applies
  the default-page redirects and the redirect tables, extracts the file name, and either forwards
  to the content servlet or renders the documentation template.
- **Toc.** `read` is a one-pass parser over a StAX event stream; `write` emits the same format,
  and the two round-trip.

Modules:

- `Wrappers`: Option and Result, for null and exceptions.
- `JavaStrings`: the `String` and `StringUtils` operations, with their Java meaning.
- `Toc`: the table of contents, the event reader and writer classes, the parser specification and
  the round trip.
- `LinkedMaps`: `LinkedHashMap` as an ordered key list plus a map.
- `Listener`: the startup build. Class `Webapp` holds the servlet context attributes that the
  listener updates in place; pure functions over a `Registry` value specify it.
- `Resolve`: the path walk both servlets share.
- `Content`: the content servlet.
- `Docs`: the docs servlet.

The servlets read a `Registry` value, the attributes the listener left.

These are inputs, not modelled:

- The jars are a map from resource path to archive. An archive is an optional symbolic name plus
  a map from entry name to bytes, size and time.
- The XML, plugin and index readers, HTML text extraction, `Pattern.compile` and
  `Matcher.matches`, and the container's mime type lookup are function-valued parameters.
- The iteration order of the listed paths and of each redirect property file is an input
  sequence.

## Model

| member | source | states |
|---|---|---|
| JavaStrings.TrimSlashes | tobar-segais-webapp/src/main/java/org/tobarsegais/webapp/ServletContextListenerImpl.java:245-246 | removeEnd(removeStart(s, "/"), "/") drops at most one leading and one trailing slash, exactly as the string's ends dictate |
| JavaStrings.CutAt | tobar-segais-webapp/src/main/java/org/tobarsegais/webapp/ServletContextListenerImpl.java:185-188 | the text before the first occurrence of a character is a prefix free of it, ending at that character or at the end |
| LinkedMaps.LinkedMap.Put | tobar-segais-webapp/src/main/java/org/tobarsegais/webapp/ServletContextListenerImpl.java:150 | LinkedHashMap.put keeps every key once: a new key is appended to the order, an existing key keeps its place and takes the new value |
| LinkedMaps.Empty | tobar-segais-webapp/src/main/java/org/tobarsegais/webapp/ServletContextListenerImpl.java:82 | the new contents map is empty and well formed |
| Toc.SkipToStart | tobar-segais-webapp/src/main/java/org/tobarsegais/webapp/data/Toc.java:53-55 | the leading loop stops on the first start element, or on the last event when there is none |
| Toc.ChildrenFrom | tobar-segais-webapp/src/main/java/org/tobarsegais/webapp/data/Toc.java:64-79 | the child loop only ever moves the reader forward and only appends to the topics collected |
| Toc.ReadTopicAt | tobar-segais-webapp/src/main/java/org/tobarsegais/webapp/data/Toc.java:70 | Topic.read leaves the reader at or after the topic's start element, inside the stream |
| Toc.ParseTocFrom | tobar-segais-webapp/src/main/java/org/tobarsegais/webapp/data/Toc.java:52-81 | "Expecting a start element" exactly when no start element follows; "Expecting a <toc> element" exactly when the first one is not toc; otherwise the root's label and topic attributes and the depth-0 topics |
| Toc.ParseToc | tobar-segais-webapp/src/main/java/org/tobarsegais/webapp/data/Toc.java:44-50 | a descriptor reads as a toc exactly when its first start element is toc |
| Toc.Read | tobar-segais-webapp/src/main/java/org/tobarsegais/webapp/data/Toc.java:52-81 | the cursor loops (skip to start, check the root, count depth, collect depth-0 topics) compute ParseTocFrom from the reader's position |
| Toc.ReadEvents | tobar-segais-webapp/src/main/java/org/tobarsegais/webapp/data/Toc.java:44-50 | reading a descriptor through a fresh reader gives ParseToc of its events |
| Toc.ReadTopic | tobar-segais-webapp/src/main/java/org/tobarsegais/webapp/data/Toc.java:70 | Topic.read by the same depth discipline yields the topic and the reader position ReadTopicAt specifies |
| Toc.AttributesOf | tobar-segais-webapp/src/main/java/org/tobarsegais/webapp/data/Toc.java:85-86 | the attributes written give back the label and the href under their names |
| Toc.Write | tobar-segais-webapp/src/main/java/org/tobarsegais/webapp/data/Toc.java:83-91 | write appends a toc start with label and topic attributes, each child topic in order, then the end element |
| Toc.WriteTopics | tobar-segais-webapp/src/main/java/org/tobarsegais/webapp/data/Toc.java:87-89 | the children are written one after the other, in order |
| Toc.WriteTopic | tobar-segais-webapp/src/main/java/org/tobarsegais/webapp/data/Toc.java:88 | a topic is written as a topic start with label and href, its children, then the end element |
| Toc.ReadWrittenTopic | tobar-segais-webapp/src/main/java/org/tobarsegais/webapp/data/Toc.java:70 | reading what Topic.write wrote, wherever it stands in a stream, gives back the topic and stops on its end element |
| Toc.ReadWrittenTopics | tobar-segais-webapp/src/main/java/org/tobarsegais/webapp/data/Toc.java:66-79 | the child loop over written topics collects exactly those topics and stops on the parent's end element |
| Toc.ReadWrittenToc | tobar-segais-webapp/src/main/java/org/tobarsegais/webapp/data/Toc.java:83-91 | read(write(t)) == t: label, href and children survive, after any non-start prefix and before any suffix |
| Toc.SkipMarkup | tobar-segais-webapp/src/main/java/org/tobarsegais/webapp/data/Toc.java:71-77 | below depth 0, a well-nested element (topics inside it included) adds no child and returns to the same depth |
| Toc.SkipMarkups | tobar-segais-webapp/src/main/java/org/tobarsegais/webapp/data/Toc.java:71-77 | the same for a sequence of well-nested elements |
| Toc.WrapperIsSkipped | tobar-segais-webapp/src/main/java/org/tobarsegais/webapp/data/Toc.java:68-73 | a non-topic element at depth 0 is skipped whole: topics nested in it do not become children |
| Listener.JarStem | tobar-segais-webapp/src/main/java/org/tobarsegais/webapp/ServletContextListenerImpl.java:99-100 | the key of a jar path is the text between "/WEB-INF/bundles/" and the final ".jar" |
| Listener.BundleKey | tobar-segais-webapp/src/main/java/org/tobarsegais/webapp/ServletContextListenerImpl.java:113-122 | with a symbolic name, the key is its prefix that ends at the first ';' or at the end of the name (all of it when there is no ';'); without one, the jar stem |
| Listener.LoadToc | tobar-segais-webapp/src/main/java/org/tobarsegais/webapp/ServletContextListenerImpl.java:125-149 | a table of contents is produced only when every check holds (plugin.xml, readable plugin, toc extension with a toc file, that entry, a descriptor that reads as toc); a missing plugin.xml is exactly the first skip |
| Listener.LoadTocComplete | tobar-segais-webapp/src/main/java/org/tobarsegais/webapp/ServletContextListenerImpl.java:125-150 | conversely, a jar passing every check yields exactly its plugin and table of contents |
| Listener.ReadBundleToc | tobar-segais-webapp/src/main/java/org/tobarsegais/webapp/ServletContextListenerImpl.java:125-149 | the statement sequence with its early continues computes LoadToc |
| Listener.KeywordsOf | tobar-segais-webapp/src/main/java/org/tobarsegais/webapp/ServletContextListenerImpl.java:152-166 | a readable index adds exactly the entries Index.read returns; no index extension, a missing index entry or an IllegalStateException add none; the bundle is abandoned exactly when an index file is declared, present, and the reader throws XMLStreamException |
| Listener.ReadKeywords | tobar-segais-webapp/src/main/java/org/tobarsegais/webapp/ServletContextListenerImpl.java:152-166 | the nested index checks compute KeywordsOf |
| Listener.FileOf | tobar-segais-webapp/src/main/java/org/tobarsegais/webapp/ServletContextListenerImpl.java:181-188 | the page looked up for a node is its href cut at the first '#', or all of it when there is none |
| Listener.DocOf | tobar-segais-webapp/src/main/java/org/tobarsegais/webapp/ServletContextListenerImpl.java:194-211 | a document carries the node's label, key + "/" + the href with its fragment kept, and the text of the jar entry of its page |
| Listener.Hits | tobar-segais-webapp/src/main/java/org/tobarsegais/webapp/ServletContextListenerImpl.java:181-204 | as written, every node kept has an href whose page is an entry of the jar |
| Listener.HitsAreIndexableNodes | tobar-segais-webapp/src/main/java/org/tobarsegais/webapp/ServletContextListenerImpl.java:181-204 | as written, a node gives a document if and only if it has an href and its page is an entry: the "already indexed" check never fires |
| Listener.DuplicatePageIndexedTwice | tobar-segais-webapp/src/main/java/org/tobarsegais/webapp/ServletContextListenerImpl.java:189-193 | a page and a child referring to a section of it give two documents as written and one with the file set kept |
| Listener.DedupHits | tobar-segais-webapp/src/main/java/org/tobarsegais/webapp/ServletContextListenerImpl.java:189-193 | with the file set kept, every node kept is one with an existing page |
| Listener.DedupHitsDistinct | tobar-segais-webapp/src/main/java/org/tobarsegais/webapp/ServletContextListenerImpl.java:189-193 | with the file set kept, no page is indexed twice |
| Listener.DedupHitsCovers | tobar-segais-webapp/src/main/java/org/tobarsegais/webapp/ServletContextListenerImpl.java:170-204 | with the file set kept, the pages indexed are exactly those indexed as written, and every indexable node's page is among them |
| Listener.PageSeen | tobar-segais-webapp/src/main/java/org/tobarsegais/webapp/ServletContextListenerImpl.java:189-193 | a page is among those indexed as written exactly when some indexable node reads it |
| Listener.DedupHitsFirstReferences | tobar-segais-webapp/src/main/java/org/tobarsegais/webapp/ServletContextListenerImpl.java:170-204 | with the file set kept, the nodes indexed are exactly the nodes that are the first indexable reference to their page, in visiting order |
| Listener.DocsOf | tobar-segais-webapp/src/main/java/org/tobarsegais/webapp/ServletContextListenerImpl.java:194-211 | one document per kept node, in visiting order |
| Listener.IndexToc | tobar-segais-webapp/src/main/java/org/tobarsegais/webapp/ServletContextListenerImpl.java:168-216 | the stack-of-iterators loop as written visits the tree in pre-order and emits the documents of Hits over that order |
| Listener.IndexTocDeduplicated | tobar-segais-webapp/src/main/java/org/tobarsegais/webapp/ServletContextListenerImpl.java:168-216 | the same loop with each indexed page added to the file set emits the documents of DedupHits over the pre-order |
| Listener.VisitAsWritten | tobar-segais-webapp/src/main/java/org/tobarsegais/webapp/ServletContextListenerImpl.java:181-211 | one more visited node adds its document exactly when it is indexable |
| Listener.VisitDeduplicated | tobar-segais-webapp/src/main/java/org/tobarsegais/webapp/ServletContextListenerImpl.java:181-211 | one more visited node adds its document and its page exactly when its page is present and new |
| Listener.Advance | tobar-segais-webapp/src/main/java/org/tobarsegais/webapp/ServletContextListenerImpl.java:173-180 | popping an iterator, pushing it back advanced and pushing the children keeps visited + pending equal to the pre-order |
| Listener.PreOrderSize | tobar-segais-webapp/src/main/java/org/tobarsegais/webapp/ServletContextListenerImpl.java:171-180 | the walk makes as many visits as the tree has nodes, the root included |
| Listener.PreOrderOfChildren | tobar-segais-webapp/src/main/java/org/tobarsegais/webapp/ServletContextListenerImpl.java:171-180 | the root is visited first, then each child's subtree, the children in order |
| Listener.LastDefining | tobar-segais-webapp/src/main/java/org/tobarsegais/webapp/ServletContextListenerImpl.java:242-251 | the last property entry with a non-blank value whose trimmed key is the source, or none |
| Listener.RedirectTable | tobar-segais-webapp/src/main/java/org/tobarsegais/webapp/ServletContextListenerImpl.java:242-251 | after a redirect file, a source maps to the trimmed value of its last non-blank entry; a source no such entry names keeps what the table had |
| Listener.BuildTable | tobar-segais-webapp/src/main/java/org/tobarsegais/webapp/ServletContextListenerImpl.java:264-273 | the builder loop (skip blank values, trim key and value) computes WithRedirects |
| Listener.PatternOf | tobar-segais-webapp/src/main/java/org/tobarsegais/webapp/ServletContextListenerImpl.java:280-289 | a sequence.lst line is kept exactly when its cut at the first '#' is not blank and compiles, and then the pattern is that cut |
| Listener.Patterns | tobar-segais-webapp/src/main/java/org/tobarsegais/webapp/ServletContextListenerImpl.java:279-290 | every pattern kept is non-blank, '#'-free and valid, and there are no more patterns than lines |
| Listener.PatternsComplete | tobar-segais-webapp/src/main/java/org/tobarsegais/webapp/ServletContextListenerImpl.java:279-290 | a pattern is in the sequence exactly when some line passes the filter with that pattern |
| Listener.PatternsSnoc | tobar-segais-webapp/src/main/java/org/tobarsegais/webapp/ServletContextListenerImpl.java:279-290 | one more line appends its pattern, if it has one, after the patterns of the lines before it: the order of the lines is kept |
| Listener.ParseSequence | tobar-segais-webapp/src/main/java/org/tobarsegais/webapp/ServletContextListenerImpl.java:274-297 | the reading loop with its continues computes Patterns |
| Listener.GetSequenceOrder | tobar-segais-webapp/src/main/java/org/tobarsegais/webapp/ServletContextListenerImpl.java:408-415 | the position of the first pattern the key matches, or the number of patterns when none does |
| Listener.Layer | tobar-segais-webapp/src/main/java/org/tobarsegais/webapp/ServletContextListenerImpl.java:342-349 | a blank value in a layer removes the parameter, any other sets it, and parameters the layer does not name are kept |
| Listener.LayerOneMore | tobar-segais-webapp/src/main/java/org/tobarsegais/webapp/ServletContextListenerImpl.java:342-349 | taking one more key of a layer removes that parameter when the value is blank and sets it otherwise, so the key-by-key loop builds the whole layer in any order |
| Listener.ParamPrecedence | tobar-segais-webapp/src/main/java/org/tobarsegais/webapp/ServletContextListenerImpl.java:317-375 | overrides beat init parameters, which beat the webapp defaults, which beat the global defaults, which beat what was set before |
| Listener.AddBundle | tobar-segais-webapp/src/main/java/org/tobarsegais/webapp/ServletContextListenerImpl.java:99-216 | a jar never touches the redirect tables, the sequence, the parameters or the search availability |
| Listener.AddContents | tobar-segais-webapp/src/main/java/org/tobarsegais/webapp/ServletContextListenerImpl.java:125-216 | a jar that fails a check leaves the registry as it was; one that passes puts its table of contents; when its index is not aborted it appends exactly that bundle's keywords and, with indexing on, one document per indexable reference in visiting order, as written; when the index read aborts, the keywords and documents stay as they were; the bundles, both redirect tables, the sequence and the params never change |
| Listener.PathStep | tobar-segais-webapp/src/main/java/org/tobarsegais/webapp/ServletContextListenerImpl.java:98-298 | no listed file changes the parameters or the search availability, and the contents stay well formed |
| Listener.LoadPaths | tobar-segais-webapp/src/main/java/org/tobarsegais/webapp/ServletContextListenerImpl.java:94-300 | after the whole directory the contents are still well formed |
| Listener.LoadPathsKeepsSettings | tobar-segais-webapp/src/main/java/org/tobarsegais/webapp/ServletContextListenerImpl.java:94-300 | the bundle directory never changes the parameters or the search availability |
| Listener.Fresh | tobar-segais-webapp/src/main/java/org/tobarsegais/webapp/ServletContextListenerImpl.java:79-83 | the listener starts from new, well-formed, empty tables |
| Listener.SkippedBundleOnlyRecordsAlias | tobar-segais-webapp/src/main/java/org/tobarsegais/webapp/ServletContextListenerImpl.java:113-149 | a jar that fails a check changes nothing but its alias, and nothing at all without a symbolic name |
| Listener.IndexNeverRemovesToc | tobar-segais-webapp/src/main/java/org/tobarsegais/webapp/ServletContextListenerImpl.java:150-166 | once read, a jar's table of contents is in the contents whatever its index file does, and a missing index adds no keywords |
| Listener.OtherBundlesUnaffected | tobar-segais-webapp/src/main/java/org/tobarsegais/webapp/ServletContextListenerImpl.java:125-150 | a jar leaves every other bundle's table of contents as it was |
| Listener.Webapp.LoadBundle | tobar-segais-webapp/src/main/java/org/tobarsegais/webapp/ServletContextListenerImpl.java:99-216 | the loop body for a jar updates the attributes to AddBundle of the old ones |
| Listener.Webapp.AddBundleContents | tobar-segais-webapp/src/main/java/org/tobarsegais/webapp/ServletContextListenerImpl.java:125-216 | the skip chain, contents put, keywords and the indexing loop as written update the attributes to AddContents of the old ones |
| Listener.Webapp.ApplyLayer | tobar-segais-webapp/src/main/java/org/tobarsegais/webapp/ServletContextListenerImpl.java:342-349 | the loop over a layer's keys sets the parameters to Layer of the old ones and changes nothing else |
| Listener.Webapp.SetInitParameters | tobar-segais-webapp/src/main/java/org/tobarsegais/webapp/ServletContextListenerImpl.java:351-353 | every init parameter is set as it is, the others kept, nothing else changed |
| Listener.Webapp.LoadPath | tobar-segais-webapp/src/main/java/org/tobarsegais/webapp/ServletContextListenerImpl.java:98-298 | one listed path updates the attributes to PathStep of the old ones |
| Listener.Webapp.Reset | tobar-segais-webapp/src/main/java/org/tobarsegais/webapp/ServletContextListenerImpl.java:79-83 | the listener's tables start empty |
| Listener.Webapp.LoadBundleDirectory | tobar-segais-webapp/src/main/java/org/tobarsegais/webapp/ServletContextListenerImpl.java:94-300 | the loop over the listed paths updates the attributes to LoadPaths of the old ones |
| Listener.Webapp.LayerParameters | tobar-segais-webapp/src/main/java/org/tobarsegais/webapp/ServletContextListenerImpl.java:317-375 | the three layers set the parameters to ContextParams of the old ones |
| Listener.Webapp.ContextInitialized | tobar-segais-webapp/src/main/java/org/tobarsegais/webapp/ServletContextListenerImpl.java:77-376 | contextInitialized leaves the attributes Initialized specifies, with the contents well formed |
| Resolve.StripPluginsRoot | tobar-segais-webapp/src/main/java/org/tobarsegais/webapp/ContentServlet.java:50-53 | a path without /PLUGINS_ROOT/ is unchanged; otherwise what remains is the suffix from the marker's final '/' |
| Resolve.StrippedPath | tobar-segais-webapp/src/main/java/org/tobarsegais/webapp/ContentServlet.java:46-53 | the path info, or the servlet path, stripped as StripPluginsRoot says |
| Resolve.CandidateKey | tobar-segais-webapp/src/main/java/org/tobarsegais/webapp/ContentServlet.java:63-66 | the candidate key is the text before the '/', less its leading '/' exactly when it starts with one |
| Resolve.KeyAt | tobar-segais-webapp/src/main/java/org/tobarsegais/webapp/ContentServlet.java:63-66 | the substring and startsWith statements compute CandidateKey |
| Resolve.JarPath | tobar-segais-webapp/src/main/java/org/tobarsegais/webapp/ContentServlet.java:86 | BUNDLE_PATH + "/" + key + ".jar" is the jar path the listener derived the key from |
| Resolve.ArchiveKey | tobar-segais-webapp/src/main/java/org/tobarsegais/webapp/ContentServlet.java:83-85 | a key in the bundles table is replaced by its jar stem, any other is kept |
| Resolve.FileNameAt | tobar-segais-webapp/src/main/java/org/tobarsegais/webapp/ContentServlet.java:98-100 | the entry name is the text after the '/' up to the first '#' or the end |
| Resolve.Location | tobar-segais-webapp/src/main/java/org/tobarsegais/webapp/ContentServlet.java:69-71 | the Location starts with context path + servlet path + "/", ends with the rest of the path from the '/', and holds the slash-trimmed target between them |
| Resolve.OpenEntry | tobar-segais-webapp/src/main/java/org/tobarsegais/webapp/ContentServlet.java:83-104 | an entry is found exactly when the candidate's jar exists and holds the named entry, and it is that jar's entry |
| Resolve.FirstCandidate | tobar-segais-webapp/src/main/java/org/tobarsegais/webapp/ContentServlet.java:58-104 | the first '/' from a given position whose candidate settles the request, no earlier one doing so, or -1 |
| Resolve.FirstCandidateUnique | tobar-segais-webapp/src/main/java/org/tobarsegais/webapp/ContentServlet.java:58-104 | any '/' that settles the request with none before it is the one the walk stops at |
| Resolve.SymbolicNameReachesJar | tobar-segais-webapp/src/main/java/org/tobarsegais/webapp/ContentServlet.java:83-86 | a jar registered under its symbolic name is reached through that name's alias, and through its stem |
| Content.ContentLength | tobar-segais-webapp/src/main/java/org/tobarsegais/webapp/ContentServlet.java:105-108 | a Content-Length is sent exactly for 0 < size < Integer.MAX_VALUE, and is the size |
| Content.CacheControl | tobar-segais-webapp/src/main/java/org/tobarsegais/webapp/ContentServlet.java:111-120 | the policy is one of the configured values, and there is none exactly when no exact, major-type or default key is set |
| Content.CacheControlPrecedence | tobar-segais-webapp/src/main/java/org/tobarsegais/webapp/ContentServlet.java:111-120 | the exact mime key beats major + "/*", which beats cache-control.default |
| Content.CacheControlAsWrittenFails | tobar-segais-webapp/src/main/java/org/tobarsegais/webapp/ContentServlet.java:111-117 | as written the lookup throws exactly for a null mime type with no "cache-control.mime.null" set, and otherwise agrees with CacheControl |
| Content.UnknownTypeFails | tobar-segais-webapp/src/main/java/org/tobarsegais/webapp/ContentServlet.java:113 | an unknown file type with no cache settings throws as written and has no policy as intended |
| Content.LookupCacheControl | tobar-segais-webapp/src/main/java/org/tobarsegais/webapp/ContentServlet.java:111-120 | the three lookups in order throw NullPointerException exactly for a null type with no "cache-control.mime.null" set, and otherwise give CacheControl |
| Content.ServedAt | tobar-segais-webapp/src/main/java/org/tobarsegais/webapp/ContentServlet.java:98-123 | a server error exactly when the entry's type is unknown and "cache-control.mime.null" is unset; otherwise the candidate's jar entry under the extracted name, with its bytes, its mime type, ContentLength of its size, and a Cache-Control header exactly when the policy is not blank |
| Content.Serve | tobar-segais-webapp/src/main/java/org/tobarsegais/webapp/ContentServlet.java:105-133 | the header statements give that server error or exactly those headers and the entry's bytes |
| Content.ContentResponse | tobar-segais-webapp/src/main/java/org/tobarsegais/webapp/ContentServlet.java:58-138 | the response is 404 exactly when no '/' after the first character has a candidate that is redirected, aliased or resolves |
| Content.ContentOutcome | tobar-segais-webapp/src/main/java/org/tobarsegais/webapp/ContentServlet.java:58-104 | at the first settling candidate a permanent redirect beats a temporary one, which beats serving the entry; a redirect on a longer prefix fires only if no shorter one settled |
| Content.BundleRedirect | tobar-segais-webapp/src/main/java/org/tobarsegais/webapp/ContentServlet.java:67-74 | a redirected bundle name sends /name/rest to the trimmed target followed by /rest unchanged |
| Content.DoGet | tobar-segais-webapp/src/main/java/org/tobarsegais/webapp/ContentServlet.java:45-139 | the for loop over the '/' positions, with continue and early returns, computes ContentResponse |
| Content.TryCandidate | tobar-segais-webapp/src/main/java/org/tobarsegais/webapp/ContentServlet.java:63-104 | one turn of the loop decides the request exactly when its candidate settles it, and then decides it as ContentResponse does |
| Content.LastModifiedTime | tobar-segais-webapp/src/main/java/org/tobarsegais/webapp/ContentServlet.java:142-190 | the time of the entry at the first '/', the leading one included, whose candidate's jar holds the entry; -1 when there is none |
| Content.GetLastModified | tobar-segais-webapp/src/main/java/org/tobarsegais/webapp/ContentServlet.java:142-190 | the loop computes LastModifiedTime |
| Content.LastModifiedOfServed | tobar-segais-webapp/src/main/java/org/tobarsegais/webapp/ContentServlet.java:153-181 | unless the leading '/' itself names an entry, Last-Modified is the time of the very entry a GET serves |
| Docs.FirstWithTopic | tobar-segais-webapp/src/main/java/org/tobarsegais/webapp/DocsServlet.java:138-143 | the first bundle in insertion order whose table of contents knows the topic, no earlier one knowing it, or -1 |
| Docs.FindTopicPath | tobar-segais-webapp/src/main/java/org/tobarsegais/webapp/DocsServlet.java:135-145 | the loop over the contents with its early return computes TopicPath |
| Docs.FirstWithTopicUnique | tobar-segais-webapp/src/main/java/org/tobarsegais/webapp/DocsServlet.java:138-143 | any bundle knowing the topic with none before it is the one chosen |
| Docs.TopicFromFirstBundle | tobar-segais-webapp/src/main/java/org/tobarsegais/webapp/DocsServlet.java:138-143 | a bundle added later never changes the page of a topic an earlier bundle knows |
| Docs.UnknownTopicPath | tobar-segais-webapp/src/main/java/org/tobarsegais/webapp/DocsServlet.java:144 | a topic no bundle knows leads to "/docs" |
| Docs.DefaultRedirect | tobar-segais-webapp/src/main/java/org/tobarsegais/webapp/DocsServlet.java:62-77 | with a default page, "/docs" goes to "docs/" + the page and "/" to the page, less one leading '/'; without one "/docs" goes to "/docs/"; no other path |
| Docs.DefaultPage | tobar-segais-webapp/src/main/java/org/tobarsegais/webapp/DocsServlet.java:62-77 | the nested tests compute DefaultRedirect |
| Docs.FileName | tobar-segais-webapp/src/main/java/org/tobarsegais/webapp/DocsServlet.java:108-112 | the file name is the longest '/'-free ending of the path cut at its first '#' |
| Docs.PageName | tobar-segais-webapp/src/main/java/org/tobarsegais/webapp/DocsServlet.java:108-112 | the file name of dir/name, with or without a fragment, is name |
| Docs.Dispatch | tobar-segais-webapp/src/main/java/org/tobarsegais/webapp/DocsServlet.java:114-124 | forward to "/content" + path exactly when raw is given or the file name is non-empty and ends in neither .htm nor .html (case ignored); otherwise the template, with the topic's page or the path info as content |
| Docs.DispatchPage | tobar-segais-webapp/src/main/java/org/tobarsegais/webapp/DocsServlet.java:108-124 | the file name statements and the dispatch test compute Dispatch |
| Docs.HtmlPageTemplate | tobar-segais-webapp/src/main/java/org/tobarsegais/webapp/DocsServlet.java:114-124 | a page ending in .html is rendered in the template unless raw is given |
| Docs.TableRedirect | tobar-segais-webapp/src/main/java/org/tobarsegais/webapp/DocsServlet.java:87-104 | permanent before temporary, with the trimmed target and the rest of the path |
| Docs.RedirectLoop | tobar-segais-webapp/src/main/java/org/tobarsegais/webapp/DocsServlet.java:82-105 | the loop over the '/' positions, from the first on, finds no key exactly when no candidate is in either table, and otherwise redirects from the first one |
| Docs.DocsResponseOf | tobar-segais-webapp/src/main/java/org/tobarsegais/webapp/DocsServlet.java:44-125 | topic requests are never table-redirected, and the default-page redirect is sent exactly when DefaultRedirect applies |
| Docs.DoGet | tobar-segais-webapp/src/main/java/org/tobarsegais/webapp/DocsServlet.java:44-125 | the statement sequence computes DocsResponseOf |
| Docs.EmptyKeyRedirects | tobar-segais-webapp/src/main/java/org/tobarsegais/webapp/DocsServlet.java:82-95 | the walk does not skip the leading '/': a redirect of the empty key moves every plain path, kept whole |
| Docs.TopicIgnoresTables | tobar-segais-webapp/src/main/java/org/tobarsegais/webapp/DocsServlet.java:79 | a topic request past the default-page test goes straight to the dispatch with the topic's page |
| Docs.UnknownTopicGoesHome | tobar-segais-webapp/src/main/java/org/tobarsegais/webapp/DocsServlet.java:58-77 | a topic no bundle knows redirects to the default page, or to "/docs/" when none is configured |
| Docs.HtmlPageRendered | tobar-segais-webapp/src/main/java/org/tobarsegais/webapp/DocsServlet.java:114-124 | a plain request for an .html page no table redirects renders the template with the path info |

## Left out

- Topic.java, TocEntry.java, Plugin.java, Extension.java, Index.java and IndexEntry.java are not part of this model:
  - `Topic.read` and `Topic.write` are modelled on the discipline of `Toc.read` and `Toc.write`, with the element `topic` and the attribute `href`;
  - `TocEntry.lookupTopic` is a function parameter of the docs servlet;
  - `Plugin.read` and `Index.read` are reader parameters whose outcomes are given.
- The two `Toc` constructors both build the same `TocEntry` value. A varargs array and a collection are the same sequence here, so they are not modelled separately.
- Toc.Write: a null label or href writes no attribute. The StAX writer's behaviour for a null value is unspecified.
- An `IllegalStateException` from `Plugin.read` is not caught by the listener and would end startup. It is modelled as the `PluginUnreadable` skip.
- The listener's `IOException`, `MalformedURLException` and "not a jar connection" outcomes are not modelled. A jar that cannot be opened at all is absent from the jar map, and then nothing happens for it. The model does not capture the partial effects of an `IOException` thrown later, which the catch at ServletContextListenerImpl.java:218-223 keeps:
  - one thrown after `bundles.put` keeps the alias only;
  - one thrown by `getInputStream(indexEntry)` (ServletContextListenerImpl.java:157) comes after `contents.put`, so the table of contents is kept and the keywords and documents are lost;
  - one thrown inside the indexing loop, by `getInputStream(docEntry)` or `IOUtils.toString` (ServletContextListenerImpl.java:206-214), comes after `keywords.addAll`, so the keywords and the documents already added are kept, and the rest of the bundle's documents are lost.
- Resolve.OpenEntry: an `IOException` from `getJarFile()` (ContentServlet.java:96) is not caught in `doGet`, so the request fails instead of moving to the next candidate. In `getLastModified` the catch at ContentServlet.java:186-188 ends the whole walk with -1. The model has no failing jar: a jar is present in the map or absent.
- Lucene is not modelled: the index writer, the fields, and the analyzed text. A document is a (title, href, text) record, and the text extractor is a parameter.
- A null label makes Lucene's `Field` constructor throw. The model keeps the Option label instead.
- Listener.GetSequenceOrder: it requires the sequence attribute to be present. The source dereferences it and throws when `sequence.lst` was never listed.
- Listener.PatternOf: the source's `line.startsWith("#")` test cannot succeed once the line is cut at its first `#`. The model keeps it; it has no effect.
- `Properties.load` parsing and the order of `stringPropertyNames` are not modelled. Each redirect file is an input sequence of entries in iteration order, and the parameter layers are maps.
- The servlet transport is not modelled: status codes, header setting, `flushBuffer`, `sendError`, `sendRedirect`, `RequestDispatcher.forward`, and byte copying. Responses are datatype values.
- `getMimeType` and the jar lookups are map and function inputs. A jar that cannot be opened is absent from the map.
- JavaStrings.ToLower: only ASCII letters are lowered. That is all the comparison with ".htm" and ".html" depends on.
- Resolve.Location: redirect targets are trimmed once when the table is built and again when the Location is formed. The model does both, as the source does.
- Concurrency and servlet lifecycle are not modelled. The servlets read the registry the listener left, as a frozen value.

## Findings

| source | as written | input that shows it | evidently intended | confidence | as-written member | corrected member |
|---|---|---|---|---|---|---|
| tobar-segais-webapp/src/main/java/org/tobarsegais/webapp/ServletContextListenerImpl.java:189-193 | the set `files` is consulted before indexing a page but never added to, so the "already indexed" skip never fires | a table of contents with a page `faq.html` and a child `faq.html#section2`, both present: two documents for one page | each page is indexed once, by its first reference | not executed | Listener.IndexToc, Listener.DuplicatePageIndexedTwice | Listener.IndexTocDeduplicated, Listener.DedupHitsFirstReferences |
| tobar-segais-webapp/src/main/java/org/tobarsegais/webapp/ContentServlet.java:113 | when the container knows no mime type for a file and `cache-control.mime.null` is unset, `mimeType.indexOf('/')` dereferences null | any served entry whose name has no known type, with no cache-control parameters at all | a null type has no major type and falls through to `cache-control.default` | not executed | Content.CacheControlAsWritten, Content.UnknownTypeFails | Content.CacheControl, Content.CacheControlPrecedence |

The servlets and the registry build follow the code as written:
- AddContents and Webapp.AddBundleContents index every reference (Hits and IndexToc).
- The content servlet answers ServerError where the lookup throws (ServedAt, Serve).

The corrected definitions stand beside them with their properties proved:
- IndexTocDeduplicated, DedupHitsDistinct and DedupHitsFirstReferences;
- CacheControl and CacheControlPrecedence.
