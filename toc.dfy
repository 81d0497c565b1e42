/**
 * A bundle's table of contents (Toc.java) and the descriptor it is read from and written to.
 *
 * The XML descriptor is seen as the event stream of a StAX cursor: start elements with their
 * attributes, end elements, and everything else (document start and end, text, comments).
 * Toc is the root entry and Topic every entry below it; both are TocEntry values here.
 * Topic.java is not part of this model: Topic.read and Topic.write are modelled on the same
 * discipline as Toc.read and Toc.write, with the element name "topic" and the attribute "href".
 */
module Toc {
  import opened Wrappers

  /** A node of the tree: a label, an optional page reference and the ordered child topics. */
  datatype TocEntry = TocEntry(title: Option<string>, href: Option<string>, children: seq<TocEntry>)

  datatype Event =
    | StartElement(name: string, attributes: map<string, string>)
    | EndElement
    | OtherEvent

  /** reader.getAttributeValue(null, name) on a start element. */
  function Attribute(e: Event, name: string): Option<string>
    requires e.StartElement?
  {
    Get(e.attributes, name)
  }

  // ------------------------------------------------------------------------------------------
  // What Toc.read computes, as functions of the events and the reader's position.
  // ------------------------------------------------------------------------------------------

  /** q is the first start element at or after p. */
  ghost predicate FirstStart(ev: seq<Event>, p: nat, q: nat) {
    p <= q < |ev| && ev[q].StartElement? && forall j :: p <= j < q ==> !ev[j].StartElement?
  }

  /** Where the leading loop of Toc.read stops: on the first start element, or on the last event. */
  function SkipToStart(ev: seq<Event>, p: nat): (q: nat)
    requires p < |ev|
    ensures p <= q < |ev|
    ensures ev[q].StartElement? || q == |ev| - 1
    ensures forall j :: p <= j < q ==> !ev[j].StartElement?
    decreases |ev| - p
  {
    if p + 1 < |ev| && !ev[p].StartElement? then SkipToStart(ev, p + 1) else p
  }

  /**
   * Topic.read with the reader on a topic start element at p: the topic and the position the
   * reader is left on (the topic's end element, or the last event if the stream ends first).
   */
  function ReadTopicAt(ev: seq<Event>, p: nat): (r: (TocEntry, nat))
    requires p < |ev| && ev[p].StartElement?
    ensures p <= r.1 < |ev|
    decreases |ev| - p, 1
  {
    var c := ChildrenFrom(ev, p, 0, []);
    (TocEntry(Attribute(ev[p], "label"), Attribute(ev[p], "href"), c.0), c.1)
  }

  /**
   * The child loop of Toc.read (and of Topic.read), from the reader at p with the given skip depth
   * and the topics collected so far: only a "topic" start at depth 0 becomes a child; any other
   * start deepens, any end rises, and the loop ends once the depth is negative or the stream ends.
   */
  function ChildrenFrom(ev: seq<Event>, p: nat, depth: int, acc: seq<TocEntry>): (r: (seq<TocEntry>, nat))
    requires p < |ev|
    ensures p <= r.1 < |ev|
    ensures acc <= r.0
    decreases |ev| - p, 0
  {
    if p + 1 >= |ev| || depth < 0 then (acc, p)
    else match ev[p + 1]
      case StartElement(name, _) =>
        if depth == 0 && name == "topic" then
          var t := ReadTopicAt(ev, p + 1);
          ChildrenFrom(ev, t.1, depth, acc + [t.0])
        else
          ChildrenFrom(ev, p + 1, depth + 1, acc)
      case EndElement => ChildrenFrom(ev, p + 1, depth - 1, acc)
      case OtherEvent => ChildrenFrom(ev, p + 1, depth, acc)
  }

  /**
   * Toc.read from the reader at p: leading non-start events are skipped; no start element at all
   * and a root other than "toc" are the two errors; otherwise the root's label and topic
   * attributes and the depth-0 topics.
   */
  function ParseTocFrom(ev: seq<Event>, p: nat): (r: Result<TocEntry, string>)
    requires p < |ev|
    ensures r == Failure("Expecting a start element") <==> forall j :: p <= j < |ev| ==> !ev[j].StartElement?
    ensures r == Failure("Expecting a <toc> element") <==> exists q: nat :: FirstStart(ev, p, q) && ev[q].name != "toc"
    ensures r.Failure? ==> r == Failure("Expecting a start element") || r == Failure("Expecting a <toc> element")
    ensures forall q: nat :: FirstStart(ev, p, q) && ev[q].name == "toc" ==>
              r == Success(TocEntry(Attribute(ev[q], "label"), Attribute(ev[q], "topic"), ChildrenFrom(ev, q, 0, []).0))
  {
    var q := SkipToStart(ev, p);
    assert ev[q].StartElement? ==> FirstStart(ev, p, q);
    assert forall q': nat :: FirstStart(ev, p, q') ==> q' == q;
    if !ev[q].StartElement? then Failure("Expecting a start element")
    else if ev[q].name != "toc" then Failure("Expecting a <toc> element")
    else Success(TocEntry(Attribute(ev[q], "label"), Attribute(ev[q], "topic"), ChildrenFrom(ev, q, 0, []).0))
  }

  // ------------------------------------------------------------------------------------------
  // The reader: a StAX cursor over a fixed event stream.
  // ------------------------------------------------------------------------------------------

  class EventReader {
    const events: seq<Event>
    var pos: nat

    ghost predicate Valid()
      reads this
    {
      pos < |events|
    }

    /** A StAX reader always stands on an event, START_DOCUMENT to begin with. */
    constructor (events: seq<Event>)
      requires |events| > 0
      ensures Valid() && this.events == events && pos == 0
    {
      this.events := events;
      pos := 0;
    }

    function HasNext(): bool
      reads this
    {
      pos + 1 < |events|
    }

    function Current(): Event
      reads this
      requires Valid()
    {
      events[pos]
    }

    method Next() returns (e: Event)
      requires Valid() && HasNext()
      modifies this
      ensures Valid() && pos == old(pos) + 1 && e == events[pos]
    {
      pos := pos + 1;
      e := events[pos];
    }
  }

  /** Toc.read(XMLStreamReader). */
  method Read(reader: EventReader) returns (r: Result<TocEntry, string>)
    requires reader.Valid()
    modifies reader
    ensures reader.Valid()
    ensures r == ParseTocFrom(reader.events, old(reader.pos))
  {
    ghost var p := reader.pos;
    while reader.HasNext() && !reader.Current().StartElement?
      invariant reader.Valid() && p <= reader.pos
      invariant SkipToStart(reader.events, p) == SkipToStart(reader.events, reader.pos)
      decreases |reader.events| - reader.pos
    {
      var _ := reader.Next();
    }
    if !reader.Current().StartElement? {
      return Failure("Expecting a start element");
    }
    if reader.Current().name != "toc" {
      return Failure("Expecting a <toc> element");
    }
    var title := Attribute(reader.Current(), "label");
    var topic := Attribute(reader.Current(), "topic");
    ghost var q := reader.pos;
    var topics: seq<TocEntry> := [];
    var depth := 0;
    while reader.HasNext() && depth >= 0
      invariant reader.Valid() && q <= reader.pos
      invariant ChildrenFrom(reader.events, q, 0, []) == ChildrenFrom(reader.events, reader.pos, depth, topics)
      decreases |reader.events| - reader.pos
    {
      var e := reader.Next();
      match e
      case StartElement(name, _) =>
        if depth == 0 && name == "topic" {
          var t := ReadTopic(reader);
          topics := topics + [t];
        } else {
          depth := depth + 1;
        }
      case EndElement =>
        depth := depth - 1;
      case OtherEvent =>
    }
    return Success(TocEntry(title, topic, topics));
  }

  /** Toc.read(InputStream): a reader over the descriptor's events, then Toc.read(XMLStreamReader). */
  function ParseToc(ev: seq<Event>): (r: Result<TocEntry, string>)
    ensures r.Success? <==> exists q: nat :: FirstStart(ev, 0, q) && ev[q].name == "toc"
  {
    if ev == [] then Failure("Expecting a start element") else ParseTocFrom(ev, 0)
  }

  method ReadEvents(ev: seq<Event>) returns (r: Result<TocEntry, string>)
    ensures r == ParseToc(ev)
  {
    if ev == [] {
      return Failure("Expecting a start element");
    }
    var reader := new EventReader(ev);
    r := Read(reader);
  }

  /** Topic.read(XMLStreamReader), with the reader on the topic's start element. */
  method ReadTopic(reader: EventReader) returns (t: TocEntry)
    requires reader.Valid() && reader.Current().StartElement?
    modifies reader
    ensures reader.Valid()
    ensures (t, reader.pos) == ReadTopicAt(reader.events, old(reader.pos))
    decreases |reader.events| - reader.pos
  {
    ghost var p := reader.pos;
    var title := Attribute(reader.Current(), "label");
    var href := Attribute(reader.Current(), "href");
    var topics: seq<TocEntry> := [];
    var depth := 0;
    while reader.HasNext() && depth >= 0
      invariant reader.Valid() && p <= reader.pos
      invariant ChildrenFrom(reader.events, p, 0, []) == ChildrenFrom(reader.events, reader.pos, depth, topics)
      decreases |reader.events| - reader.pos
    {
      var e := reader.Next();
      match e
      case StartElement(name, _) =>
        if depth == 0 && name == "topic" {
          var child := ReadTopic(reader);
          topics := topics + [child];
        } else {
          depth := depth + 1;
        }
      case EndElement =>
        depth := depth - 1;
      case OtherEvent =>
    }
    t := TocEntry(title, href, topics);
  }

  // ------------------------------------------------------------------------------------------
  // The writer: Toc.write and Topic.write.
  // ------------------------------------------------------------------------------------------

  /**
   * The attributes written for an entry. A null label or href is not written: the StAX writer's
   * behaviour for a null attribute value is left unspecified by its interface.
   */
  function AttributesOf(title: Option<string>, hrefName: string, href: Option<string>): (m: map<string, string>)
    requires hrefName != "label"
    ensures Get(m, "label") == title && Get(m, hrefName) == href
  {
    var m: map<string, string> := if title.Some? then map[]["label" := title.value] else map[];
    if href.Some? then m[hrefName := href.value] else m
  }

  function TocEvents(toc: TocEntry): seq<Event> {
    [StartElement("toc", AttributesOf(toc.title, "topic", toc.href))] + TopicsEvents(toc.children) + [EndElement]
  }

  function TopicEvents(t: TocEntry): seq<Event>
    decreases t, 1
  {
    [StartElement("topic", AttributesOf(t.title, "href", t.href))] + TopicsEvents(t.children) + [EndElement]
  }

  function TopicsEvents(ts: seq<TocEntry>): seq<Event>
    decreases ts, 0
  {
    if ts == [] then [] else TopicEvents(ts[0]) + TopicsEvents(ts[1..])
  }

  class EventWriter {
    var written: seq<Event>

    constructor ()
      ensures written == []
    {
      written := [];
    }

    method WriteStartElement(name: string)
      modifies this
      ensures written == old(written) + [StartElement(name, map[])]
    {
      written := written + [StartElement(name, map[])];
    }

    /** Adds an attribute to the element just started; a null value writes nothing. */
    method WriteAttribute(name: string, value: Option<string>)
      requires |written| > 0 && written[|written| - 1].StartElement?
      modifies this
      ensures |written| == |old(written)| && written[..|written| - 1] == old(written)[..|written| - 1]
      ensures var e := old(written)[|written| - 1];
        written[|written| - 1] ==
          if value.Some? then StartElement(e.name, e.attributes[name := value.value]) else e
    {
      if value.Some? {
        var e := written[|written| - 1];
        written := written[..|written| - 1] + [StartElement(e.name, e.attributes[name := value.value])];
      }
    }

    method WriteEndElement()
      modifies this
      ensures written == old(written) + [EndElement]
    {
      written := written + [EndElement];
    }
  }

  /** Toc.write: the root element with its label and topic attributes, each child topic in order, the end. */
  method Write(writer: EventWriter, toc: TocEntry)
    modifies writer
    ensures writer.written == old(writer.written) + TocEvents(toc)
  {
    writer.WriteStartElement("toc");
    writer.WriteAttribute("label", toc.title);
    writer.WriteAttribute("topic", toc.href);
    assert writer.written == old(writer.written) + [StartElement("toc", AttributesOf(toc.title, "topic", toc.href))];
    WriteTopics(writer, toc.children);
    writer.WriteEndElement();
  }

  /** The loop of Toc.write (and Topic.write) over the children. */
  method WriteTopics(writer: EventWriter, ts: seq<TocEntry>)
    modifies writer
    ensures writer.written == old(writer.written) + TopicsEvents(ts)
    decreases ts, 0
  {
    var i := 0;
    while i < |ts|
      invariant 0 <= i <= |ts|
      invariant writer.written + TopicsEvents(ts[i..]) == old(writer.written) + TopicsEvents(ts)
    {
      assert ts[i..] == [ts[i]] + ts[i + 1..];
      WriteTopic(writer, ts[i]);
      i := i + 1;
    }
  }

  /** Topic.write. */
  method WriteTopic(writer: EventWriter, t: TocEntry)
    modifies writer
    ensures writer.written == old(writer.written) + TopicEvents(t)
    decreases t, 1
  {
    writer.WriteStartElement("topic");
    writer.WriteAttribute("label", t.title);
    writer.WriteAttribute("href", t.href);
    assert writer.written == old(writer.written) + [StartElement("topic", AttributesOf(t.title, "href", t.href))];
    WriteTopics(writer, t.children);
    writer.WriteEndElement();
  }

  // ------------------------------------------------------------------------------------------
  // Properties of the descriptor format.
  // ------------------------------------------------------------------------------------------

  /** Reading what Topic.write wrote gives back the topic, with the reader left on its end element. */
  lemma {:induction false} ReadWrittenTopic(ev: seq<Event>, pre: seq<Event>, t: TocEntry, suf: seq<Event>)
    requires ev == pre + TopicEvents(t) + suf
    ensures |pre| < |ev| && ev[|pre|].StartElement?
    ensures ReadTopicAt(ev, |pre|) == (t, |pre| + |TopicEvents(t)| - 1)
    decreases t, 1
  {
    var start := StartElement("topic", AttributesOf(t.title, "href", t.href));
    var pre' := pre + [start];
    assert ev == pre' + TopicsEvents(t.children) + [EndElement] + suf;
    assert ev[|pre|] == start;
    ReadWrittenTopics(ev, pre', t.children, suf, []);
    assert [] + t.children == t.children;
    assert Attribute(start, "label") == t.title && Attribute(start, "href") == t.href;
  }

  /** The child loop over what the writer's child loop wrote stops on the parent's end element. */
  lemma {:induction false} ReadWrittenTopics(ev: seq<Event>, pre: seq<Event>, ts: seq<TocEntry>, suf: seq<Event>,
                                             acc: seq<TocEntry>)
    requires |pre| > 0 && ev == pre + TopicsEvents(ts) + [EndElement] + suf
    ensures ChildrenFrom(ev, |pre| - 1, 0, acc) == (acc + ts, |pre| + |TopicsEvents(ts)|)
    decreases ts, 0
  {
    var p := |pre| - 1;
    if ts == [] {
      assert ev[p + 1] == EndElement;
      assert ChildrenFrom(ev, p, 0, acc) == ChildrenFrom(ev, p + 1, -1, acc);
      assert acc + ts == acc;
    } else {
      var pre' := pre + TopicEvents(ts[0]);
      assert ev == pre + TopicEvents(ts[0]) + (TopicsEvents(ts[1..]) + [EndElement] + suf);
      ReadWrittenTopic(ev, pre, ts[0], TopicsEvents(ts[1..]) + [EndElement] + suf);
      assert ev[p + 1] == StartElement("topic", AttributesOf(ts[0].title, "href", ts[0].href));
      assert ev == pre' + TopicsEvents(ts[1..]) + [EndElement] + suf;
      ReadWrittenTopics(ev, pre', ts[1..], suf, acc + [ts[0]]);
      assert acc + [ts[0]] + ts[1..] == acc + ts;
    }
  }

  /**
   * Round trip: reading what Toc.write wrote, behind any events that are not start elements
   * (START_DOCUMENT, comments) and before anything at all, gives back label, href and children.
   */
  lemma {:induction false} ReadWrittenToc(ev: seq<Event>, pre: seq<Event>, toc: TocEntry, suf: seq<Event>)
    requires forall j :: 0 <= j < |pre| ==> !pre[j].StartElement?
    requires ev == pre + TocEvents(toc) + suf
    ensures ParseTocFrom(ev, 0) == Success(toc)
  {
    var start := StartElement("toc", AttributesOf(toc.title, "topic", toc.href));
    var pre' := pre + [start];
    assert ev == pre' + TopicsEvents(toc.children) + [EndElement] + suf;
    assert ev[|pre|] == start;
    assert FirstStart(ev, 0, |pre|);
    ReadWrittenTopics(ev, pre', toc.children, suf, []);
    assert [] + toc.children == toc.children;
    assert Attribute(start, "label") == toc.title && Attribute(start, "topic") == toc.href;
  }

  // ------------------------------------------------------------------------------------------
  // Depth discipline: wrapper elements are skipped whole.
  // ------------------------------------------------------------------------------------------

  /** Arbitrary well-nested markup, as it may stand between topics in a descriptor dialect. */
  datatype Markup = Element(name: string, attributes: map<string, string>, content: seq<Markup>) | Text

  function MarkupEvents(m: Markup): seq<Event>
    decreases m, 1
  {
    match m
    case Element(name, attributes, content) => [StartElement(name, attributes)] + MarkupsEvents(content) + [EndElement]
    case Text => [OtherEvent]
  }

  function MarkupsEvents(ms: seq<Markup>): seq<Event>
    decreases ms, 0
  {
    if ms == [] then [] else MarkupEvents(ms[0]) + MarkupsEvents(ms[1..])
  }

  /** At a positive depth the child loop passes over well-nested markup, topics included, adding nothing. */
  lemma {:induction false} SkipMarkup(ev: seq<Event>, pre: seq<Event>, m: Markup, suf: seq<Event>, depth: int,
                                      acc: seq<TocEntry>)
    requires depth >= 1 && |pre| > 0 && ev == pre + MarkupEvents(m) + suf
    ensures ChildrenFrom(ev, |pre| - 1, depth, acc) == ChildrenFrom(ev, |pre| - 1 + |MarkupEvents(m)|, depth, acc)
    decreases m, 1
  {
    var p := |pre| - 1;
    match m
    case Text =>
      assert ev[p + 1] == OtherEvent;
    case Element(name, attributes, content) =>
      var pre' := pre + [StartElement(name, attributes)];
      assert ev == pre' + MarkupsEvents(content) + ([EndElement] + suf);
      assert ev[p + 1] == StartElement(name, attributes);
      EnterElement(ev, p, depth, acc);
      SkipMarkups(ev, pre', content, [EndElement] + suf, depth + 1, acc);
      var q := p + 1 + |MarkupsEvents(content)|;
      assert ev[q + 1] == EndElement;
      LeaveElement(ev, q, depth + 1, acc);
  }

  lemma {:induction false} SkipMarkups(ev: seq<Event>, pre: seq<Event>, ms: seq<Markup>, suf: seq<Event>, depth: int,
                                       acc: seq<TocEntry>)
    requires depth >= 1 && |pre| > 0 && ev == pre + MarkupsEvents(ms) + suf
    ensures ChildrenFrom(ev, |pre| - 1, depth, acc) == ChildrenFrom(ev, |pre| - 1 + |MarkupsEvents(ms)|, depth, acc)
    decreases ms, 0
  {
    if ms != [] {
      assert ev == pre + MarkupEvents(ms[0]) + (MarkupsEvents(ms[1..]) + suf);
      SkipMarkup(ev, pre, ms[0], MarkupsEvents(ms[1..]) + suf, depth, acc);
      var pre' := pre + MarkupEvents(ms[0]);
      assert ev == pre' + MarkupsEvents(ms[1..]) + suf;
      SkipMarkups(ev, pre', ms[1..], suf, depth, acc);
    }
  }

  /**
   * A non-topic element directly under the root is skipped whole: whatever it contains, topics
   * nested in it included, adds no child, and the loop is back at depth 0 after its end element.
   */
  lemma {:induction false} WrapperIsSkipped(ev: seq<Event>, pre: seq<Event>, w: Markup, suf: seq<Event>,
                                            acc: seq<TocEntry>)
    requires w.Element? && w.name != "topic"
    requires |pre| > 0 && ev == pre + MarkupEvents(w) + suf
    ensures ChildrenFrom(ev, |pre| - 1, 0, acc) == ChildrenFrom(ev, |pre| - 1 + |MarkupEvents(w)|, 0, acc)
  {
    var p := |pre| - 1;
    var pre' := pre + [StartElement(w.name, w.attributes)];
    assert ev == pre' + MarkupsEvents(w.content) + ([EndElement] + suf);
    assert ev[p + 1] == StartElement(w.name, w.attributes);
    EnterElement(ev, p, 0, acc);
    SkipMarkups(ev, pre', w.content, [EndElement] + suf, 1, acc);
    var q := p + 1 + |MarkupsEvents(w.content)|;
    assert ev[q + 1] == EndElement;
    LeaveElement(ev, q, 1, acc);
  }

  /** A start element other than a depth-0 topic deepens the child loop by one. */
  lemma EnterElement(ev: seq<Event>, p: nat, depth: int, acc: seq<TocEntry>)
    requires depth >= 0 && p + 1 < |ev| && ev[p + 1].StartElement? && !(depth == 0 && ev[p + 1].name == "topic")
    ensures ChildrenFrom(ev, p, depth, acc) == ChildrenFrom(ev, p + 1, depth + 1, acc)
  {
  }

  /** An end element raises the child loop by one. */
  lemma LeaveElement(ev: seq<Event>, p: nat, depth: int, acc: seq<TocEntry>)
    requires depth >= 0 && p + 1 < |ev| && ev[p + 1] == EndElement
    ensures ChildrenFrom(ev, p, depth, acc) == ChildrenFrom(ev, p + 1, depth - 1, acc)
  {
  }
}
