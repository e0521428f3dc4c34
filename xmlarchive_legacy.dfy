/**
 * The earlier XML archive reader kept among the plugins.  It checks the
 * root element and each top-level object's element name, id, class and
 * type, keeps one frame per open top-level object and builds nothing: no
 * property is read and nothing is added to the archive.  Unlike the newer
 * reader, its start handler does not stop at the error flag, looks up the
 * id and the class anywhere among the attributes and treats a missing one
 * as an error.
 */
module XmlArchiveLegacy {
  import opened Wrappers
  import opened ErrorSlot
  import opened XmlEvents
  import XmlArchive

  /** The type system as this reader uses it: registered types by name, and which are object classes. */
  datatype Registry = Registry(registered: string -> Option<string>, isObject: string -> bool)

  /** A frame: the object's id and type, and whether the type is an object class (its class is then referenced). */
  datatype Frame = Frame(id: string, typeName: string, isObject: bool)

  datatype Opening = Reject(report: XmlArchive.Report) | Skip | Push(frame: Option<Frame>)

  /** The root element, checked as the newer reader checks it. */
  function RootOpening(el: string, attrs: seq<Attr>): (o: Opening)
    ensures o.Push? <==> XmlArchive.RootOpening(el, attrs).Push?
    ensures o.Push? ==> o.frame.None?
    ensures o.Reject? <==> XmlArchive.RootOpening(el, attrs).Reject?
    ensures o.Reject? ==> o.report == XmlArchive.RootOpening(el, attrs).report
  {
    match XmlArchive.RootOpening(el, attrs)
    case Reject(r) => Reject(r)
    case _ => Push(None)
  }

  /**
   * A top-level element must be "object" with an id, a class (both found
   * anywhere among the attributes) and a registered type; each missing
   * piece is its own error, in that order.
   */
  function ObjectOpening(types: Registry, el: string, attrs: seq<Attr>): Opening
  {
    if el != "object" then Reject(XmlArchive.Report(INVALID_ATTRIBUTE, "XmlArchive invalid element: " + el))
    else match XmlArchive.FirstAttr(attrs, "id")
      case None => Reject(XmlArchive.Report(NO_ATTRIBUTE, "XmlArchive object id not found"))
      case Some(id) =>
        match XmlArchive.FirstAttr(attrs, "class")
        case None => Reject(XmlArchive.Report(NO_ATTRIBUTE, "XmlArchive object class not found"))
        case Some(klass) =>
          match types.registered(klass)
          case None => Reject(XmlArchive.Report(NO_TYPE, "XmlArchive type not exists: " + klass))
          case Some(t) => Push(Some(Frame(id, t, types.isObject(t))))
  }

  /** Inside an object nothing is pushed: properties and unknown elements only draw warnings. */
  function OpeningOf(types: Registry, frames: seq<Option<Frame>>, el: string, attrs: seq<Attr>): Opening
  {
    if frames == [] then RootOpening(el, attrs)
    else match frames[|frames| - 1]
      case None => ObjectOpening(types, el, attrs)
      case Some(_) => Skip
  }

  /** The reader's state: the frames, the depth and the error flag. */
  datatype Snapshot = Snapshot(frames: seq<Option<Frame>>, depth: int, error: bool)

  /** At most the root's empty frame and one object's frame, never more than the depth. */
  predicate Sound(s: Snapshot)
  {
    0 <= |s.frames| <= s.depth && |s.frames| <= 2 &&
    (|s.frames| > 0 ==> s.frames[0].None?) &&
    (|s.frames| == 2 ==> s.frames[1].Some?)
  }

  /**
   * One event: a start tag always counts towards the depth and is checked
   * even after an error; an end tag pops the top frame when the frame count
   * equals the depth; character data is ignored.
   */
  function Apply(types: Registry, s: Snapshot, e: Event): (r: Snapshot)
    requires Sound(s) && (e.EndTag? ==> s.depth > 0)
    ensures Sound(r) && r.depth == s.depth + Step(e)
    ensures s.error ==> r.error
  {
    match e
    case StartTag(el, attrs) =>
      (match OpeningOf(types, s.frames, el, attrs)
       case Reject(_) => s.(depth := s.depth + 1, error := true)
       case Skip => s.(depth := s.depth + 1)
       case Push(f) => s.(frames := s.frames + [f], depth := s.depth + 1))
    case EndTag(_) =>
      if |s.frames| == s.depth then s.(frames := s.frames[..|s.frames| - 1], depth := s.depth - 1)
      else s.(depth := s.depth - 1)
    case Text(_) => s
  }

  /** The error a start tag reports, if any: every start tag is checked, whatever the flag. */
  function Raised(types: Registry, s: Snapshot, el: string, attrs: seq<Attr>): Option<XmlArchive.Report>
  {
    match OpeningOf(types, s.frames, el, attrs)
    case Reject(r) => Some(r)
    case _ => None
  }

  function Run(types: Registry, events: seq<Event>): (r: Snapshot)
    requires Nested(events)
    ensures Sound(r) && r.depth == Balance(events)
  {
    if events == [] then Snapshot([], 0, false)
    else
      var n := |events|;
      Apply(types, Run(types, events[..n - 1]), events[n - 1])
  }

  lemma RunSnoc(types: Registry, events: seq<Event>, e: Event)
    requires Nested(events + [e])
    ensures Nested(events)
    ensures e.EndTag? ==> Run(types, events).depth > 0
    ensures Run(types, events + [e]) == Apply(types, Run(types, events), e)
  {
    assert (events + [e])[..|events|] == events;
  }

  /** Once set, the error flag stays set for the rest of the events. */
  lemma {:induction false} ErrorSticky(types: Registry, events: seq<Event>, m: nat)
    requires Nested(events) && m <= |events|
    requires Nested(events[..m]) && Run(types, events[..m]).error
    ensures Run(types, events).error
    decreases |events| - m
  {
    if m < |events| {
      NestedPrefix(events, m + 1);
      assert events[..m + 1] == events[..m] + [events[m]];
      RunSnoc(types, events[..m], events[m]);
      ErrorSticky(types, events, m + 1);
    } else {
      assert events[..m] == events;
    }
  }

  /** A document the tokenizer accepted to the end leaves no frame open. */
  lemma CompleteRunClosesAll(types: Registry, chunks: seq<Chunk>)
    requires WellFormed(chunks) && AllParsed(chunks)
    ensures Run(types, Events(chunks)).frames == []
  {
  }

  /** An archive cut off inside its first object leaves both frames open. */
  lemma TruncatedObjectStaysOpen(types: Registry, t: string)
    requires types.registered("Obj") == Some(t)
    ensures Nested(TruncatedEvents())
    ensures Run(types, TruncatedEvents()).frames == [None, Some(Frame("a", t, types.isObject(t)))]
  {
    var events := TruncatedEvents();
    assert events[..1][..0] == [];
    assert events[..1] == [events[0]];
    assert XmlArchive.AttrAt([Attr("version", "1.0")], -1, "version") == Some("1.0");
    assert Run(types, events[..1]).frames == [None];
    assert XmlArchive.FirstAttr([Attr("id", "a"), Attr("class", "Obj")], "id") == Some("a");
    assert XmlArchive.FirstAttr([Attr("id", "a"), Attr("class", "Obj")], "class") == Some("Obj");
  }

  function TruncatedEvents(): seq<Event>
  {
    [StartTag("archive", [Attr("version", "1.0")]), StartTag("object", [Attr("id", "a"), Attr("class", "Obj")])]
  }

  /**
   * A top-level element is pushed exactly when it is "object" with an id
   * and a class anywhere among its attributes and the class names a
   * registered type; otherwise it is an error, never skipped.
   */
  lemma ObjectRule(types: Registry, el: string, attrs: seq<Attr>)
    ensures OpeningOf(types, [None], el, attrs).Skip? == false
    ensures OpeningOf(types, [None], el, attrs).Push? <==>
              el == "object" &&
              (exists i :: 0 <= i < |attrs| && attrs[i].key == "id") &&
              (exists i :: 0 <= i < |attrs| && attrs[i].key == "class") &&
              types.registered(XmlArchive.FirstAttr(attrs, "class").value).Some?
    ensures el == "object" && (forall i :: 0 <= i < |attrs| ==> attrs[i].key != "id") ==>
              OpeningOf(types, [None], el, attrs) ==
                Reject(XmlArchive.Report(NO_ATTRIBUTE, "XmlArchive object id not found"))
  {
  }

  class ParseContext {
    var frames: seq<Option<Frame>>
    var depth: int
    var error: bool

    function Snap(): Snapshot
      reads this
    {
      Snapshot(frames, depth, error)
    }

    /** _parse_context_create: no frames, depth 0, no error. */
    constructor ()
      ensures frames == [] && depth == 0 && !error
    {
      frames := [];
      depth := 0;
      error := false;
    }

    /** _gimo_xml_start_element of the earlier reader. */
    method StartElement(types: Registry, el: string, attrs: seq<Attr>, err: LastError)
      requires Sound(Snap())
      modifies this, err
      ensures Snap() == Apply(types, old(Snap()), StartTag(el, attrs))
      ensures Raised(types, old(Snap()), el, attrs).None? ==> unchanged(err)
      ensures Raised(types, old(Snap()), el, attrs).Some? ==>
                var r := Raised(types, old(Snap()), el, attrs).value;
                err.code == r.code && err.message == Some(r.message)
    {
      depth := depth + 1;
      var o: Opening;
      if |frames| > 0 {
        if frames[|frames| - 1].Some? {
          o := Skip;
        } else {
          o := StartObject(types, el, attrs);
        }
      } else {
        o := StartRoot(el, attrs);
      }
      match o
      case Reject(r) =>
        err.SetErrorFull(r.code, Some(r.message));
        error := true;
      case Skip =>
      case Push(f) =>
        frames := frames + [f];
    }

    method StartRoot(el: string, attrs: seq<Attr>) returns (o: Opening)
      ensures o == RootOpening(el, attrs)
    {
      if el != "archive" {
        return Reject(XmlArchive.Report(INVALID_ATTRIBUTE, "XmlArchive invalid root name: " + el));
      }
      var version := XmlArchive.FindAttr(attrs, -1, "version");
      if version.None? {
        return Reject(XmlArchive.Report(NO_ATTRIBUTE, "XmlArchive version not found"));
      }
      if version.value != "1.0" {
        return Reject(XmlArchive.Report(INVALID_ATTRIBUTE, "XmlArchive invalid version: " + version.value));
      }
      o := Push(None);
    }

    method StartObject(types: Registry, el: string, attrs: seq<Attr>) returns (o: Opening)
      ensures o == ObjectOpening(types, el, attrs)
    {
      if el != "object" {
        return Reject(XmlArchive.Report(INVALID_ATTRIBUTE, "XmlArchive invalid element: " + el));
      }
      var id := XmlArchive.FindAttr(attrs, -1, "id");
      if id.None? {
        return Reject(XmlArchive.Report(NO_ATTRIBUTE, "XmlArchive object id not found"));
      }
      var klass := XmlArchive.FindAttr(attrs, -1, "class");
      if klass.None? {
        return Reject(XmlArchive.Report(NO_ATTRIBUTE, "XmlArchive object class not found"));
      }
      var t := types.registered(klass.value);
      if t.None? {
        return Reject(XmlArchive.Report(NO_TYPE, "XmlArchive type not exists: " + klass.value));
      }
      o := Push(Some(Frame(id.value, t.value, types.isObject(t.value))));
    }

    /** _gimo_xml_end_element of the earlier reader. */
    method EndElement(types: Registry, el: string)
      requires Sound(Snap()) && depth > 0
      modifies this
      ensures Snap() == Apply(types, old(Snap()), EndTag(el))
    {
      if |frames| == depth {
        frames := frames[..|frames| - 1];
      }
      depth := depth - 1;
    }

    /** One event, dispatched to its handler; character data has an empty handler. */
    method Feed(types: Registry, e: Event, err: LastError)
      requires Sound(Snap()) && (e.EndTag? ==> depth > 0)
      modifies this, err
      ensures Snap() == Apply(types, old(Snap()), e)
    {
      match e
      case StartTag(el, attrs) => StartElement(types, el, attrs, err);
      case EndTag(el) => EndElement(types, el);
      case Text(_) =>
    }
  }

  lemma FeedStep(types: Registry, events: seq<Event>, chunk: seq<Event>, k: nat)
    requires Nested(events + chunk) && k < |chunk|
    ensures Nested(events + chunk[..k]) && Nested(events + chunk[..k + 1])
    ensures chunk[k].EndTag? ==> Run(types, events + chunk[..k]).depth > 0
    ensures Run(types, events + chunk[..k + 1]) == Apply(types, Run(types, events + chunk[..k]), chunk[k])
  {
    assert (events + chunk)[..|events| + k + 1] == events + chunk[..k + 1];
    NestedPrefix(events + chunk, |events| + k + 1);
    assert events + chunk[..k + 1] == events + chunk[..k] + [chunk[k]];
    RunSnoc(types, events + chunk[..k], chunk[k]);
  }

  /** The events of one chunk fed to the handlers, in order. */
  method FeedChunk(types: Registry, ctx: ParseContext, events: seq<Event>, chunk: seq<Event>, err: LastError)
    requires Nested(events + chunk) && Nested(events)
    requires ctx.Snap() == Run(types, events)
    modifies ctx, err
    ensures ctx.Snap() == Run(types, events + chunk)
  {
    var k := 0;
    assert events + chunk[..0] == events;
    while k < |chunk|
      invariant 0 <= k <= |chunk|
      invariant Nested(events + chunk[..k]) && ctx.Snap() == Run(types, events + chunk[..k])
    {
      FeedStep(types, events, chunk, k);
      ctx.Feed(types, chunk[k], err);
      k := k + 1;
    }
    assert chunk[..k] == chunk;
  }

  method ParseChunk(types: Registry, ctx: ParseContext, chunks: seq<Chunk>, i: nat, err: LastError)
    requires WellFormed(chunks) && i < |chunks| && Nested(Events(chunks[..i]))
    requires ctx.Snap() == Run(types, Events(chunks[..i]))
    modifies ctx, err
    ensures Nested(Events(chunks[..i + 1]))
    ensures ctx.Snap() == Run(types, Events(chunks[..i + 1]))
  {
    XmlArchive.PrefixNested(chunks, i, |chunks[i].events|);
    assert chunks[i].events[..|chunks[i].events|] == chunks[i].events;
    EventsPrefix(chunks, i);
    FeedChunk(types, ctx, Events(chunks[..i]), chunks[i].events, err);
  }

  /**
   * The read loop of the earlier reader: as in the newer one, but a
   * rejected chunk is reported as IMPORT.
   */
  method Parse(types: Registry, chunks: seq<Chunk>, err: LastError)
    returns (ctx: ParseContext, processed: nat, status: Status)
    requires |chunks| > 0 && WellFormed(chunks)
    modifies err
    ensures 0 < processed <= |chunks| && status == chunks[processed - 1].status
    ensures forall i :: 0 <= i < processed - 1 ==> chunks[i].status.Parsed?
    ensures Nested(Events(chunks[..processed]))
    ensures ctx.Snap() == Run(types, Events(chunks[..processed]))
    ensures processed < |chunks| ==> status.Failed? || ctx.error
    ensures status.Failed? ==> err.code == IMPORT && err.message == Some(XmlArchive.ParseErrorMessage(status))
  {
    ctx := new ParseContext();
    processed := 0;
    status := Parsed;
    while processed < |chunks|
      invariant 0 <= processed <= |chunks|
      invariant forall i :: 0 <= i < processed ==> chunks[i].status.Parsed?
      invariant Nested(Events(chunks[..processed]))
      invariant ctx.Snap() == Run(types, Events(chunks[..processed]))
      invariant processed > 0 ==> status == chunks[processed - 1].status && !ctx.error
    {
      ParseChunk(types, ctx, chunks, processed, err);
      status := chunks[processed].status;
      processed := processed + 1;
      if status.Failed? {
        err.SetErrorFull(IMPORT, Some(XmlArchive.ParseErrorMessage(status)));
        return;
      }
      if ctx.error {
        return;
      }
    }
  }

  /**
   * The earlier _gimo_xmlarchive_read with its final assertion taken on
   * success only: OPEN_FILE when the file cannot be opened; otherwise
   * success exactly when every chunk was accepted and no start tag was
   * rejected.
   */
  method Read(types: Registry, isOpen: bool, chunks: seq<Chunk>, err: LastError) returns (ok: bool)
    requires |chunks| > 0 && WellFormed(chunks)
    modifies err
    ensures !isOpen ==> !ok && err.code == OPEN_FILE
    ensures ok <==> isOpen && AllParsed(chunks) && !Run(types, Events(chunks)).error
  {
    if !isOpen {
      err.SetError(OPEN_FILE);
      return false;
    }
    var ctx, processed, status := Parse(types, chunks, err);
    ok := status.Parsed? && !ctx.error;
    if processed < |chunks| {
      if ctx.error {
        EventsIsPrefix(chunks, processed);
        ErrorSticky(types, Events(chunks), |Events(chunks[..processed])|);
      }
    } else {
      assert chunks[..processed] == chunks;
      if ok {
        CompleteRunClosesAll(types, chunks);
        assert ctx.frames == [];
      }
    }
  }

  /** The earlier _gimo_xmlarchive_read as written: the frame stack is asserted empty whatever the outcome. */
  method ReadAsWritten(types: Registry, isOpen: bool, chunks: seq<Chunk>, err: LastError)
    returns (ok: bool, aborts: bool)
    requires |chunks| > 0 && WellFormed(chunks)
    modifies err
    ensures !isOpen ==> !ok && !aborts
    ensures isOpen && chunks[0].status.Failed? ==>
              !ok && Nested(chunks[0].events) && (aborts <==> Run(types, chunks[0].events).frames != [])
    ensures ok ==> !aborts
  {
    if !isOpen {
      err.SetError(OPEN_FILE);
      return false, false;
    }
    var ctx, processed, status := Parse(types, chunks, err);
    aborts := ctx.frames != [];
    ok := status.Parsed? && !ctx.error;
    if chunks[0].status.Failed? {
      assert processed == 1;
      EventsPrefix(chunks, 0);
      assert chunks[..0] == [];
      assert Events(chunks[..1]) == chunks[0].events;
    }
    if ok {
      assert processed == |chunks|;
      assert chunks[..processed] == chunks;
      assert AllParsed(chunks);
      CompleteRunClosesAll(types, chunks);
    }
  }

  /** A file cut off inside its first object makes the earlier reader as written abort. */
  method TruncatedArchiveAborts(types: Registry, t: string, err: LastError) returns (aborts: bool)
    requires types.registered("Obj") == Some(t)
    modifies err
    ensures aborts
  {
    var chunk := Chunk(TruncatedEvents(), Failed("no element found", 1));
    TruncatedObjectStaysOpen(types, t);
    assert [chunk][..0] == [];
    assert Events([chunk]) == chunk.events;
    var ok;
    ok, aborts := ReadAsWritten(types, true, [chunk], err);
  }
}
