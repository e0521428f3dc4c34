/**
 * The XML object archive reader.  Start-element, end-element and
 * character-data handlers keep a stack of frames (the root's frame is
 * empty, then one frame per object, property or object array being
 * built), a depth counter that follows every element, and a sticky error
 * flag.  Completed top-level objects are added to the archive under their
 * id.  The type system (type names, property lookup, object construction)
 * is a parameter of the reader.
 */
module XmlArchive {
  import opened Wrappers
  import opened ErrorSlot
  import opened XmlEvents
  import opened XmlTransform
  import Archive

  /** How the type system classifies a type the reader meets. */
  datatype TypeKind =
    | ObjectKind                   // a GObject class
    | ObjectArrayKind              // the library's boxed array of objects
    | BoxedKind                    // any other boxed type
    | BoolKind
    | EnumKind(values: seq<Named>)
    | FlagsKind(values: seq<Named>)
    | StringKind
    | NumberKind                   // the integer and floating types read with sscanf
    | OtherKind                    // no conversion from a string is registered

  datatype PropSpec = PropSpec(name: string, valueType: string)

  /** An object, or the array of objects an object-array frame collected. */
  datatype Payload = Single(obj: object) | Many(objs: seq<object>)

  datatype Value =
    | ObjectValue(payload: Payload)
    | BoxedValue(payload: Payload)
    | BoolValue(b: bool)
    | EnumValue(e: int)
    | FlagsValue(bits: bv64)
    | StringValue(s: string)
    | NumberValue(valueType: string, text: string)

  /** A construction parameter: a property name and its value. */
  datatype Param = Param(name: string, value: Value)

  /**
   * The type system as the reader uses it: a type by name (registered or
   * lazily resolved), a type's kind, a class's property by name, and object
   * construction from parameters, which may fail.
   */
  datatype Types = Types(
    named: string -> Option<string>,
    kindOf: string -> TypeKind,
    property: (string, string) -> Option<PropSpec>,
    make: (string, seq<Param>) -> Option<object>)

  datatype FrameKind = ObjectFrame | ArrayFrame | ValueFrame

  /**
   * A frame: the id (top-level objects only), the type, what the frame
   * builds, the property it fills in its parent (none for top-level objects
   * and array elements), the parameters collected so far (object frames),
   * the objects collected so far and their default class (array frames).
   */
  datatype Frame = Frame(id: Option<string>, typeName: string, kind: FrameKind, prop: Option<PropSpec>,
                         params: seq<Param>, elements: seq<object>, elementType: Option<string>)

  /** An error the reader reports: a code and its message. */
  datatype Report = Report(code: int, message: string)

  /** The first attribute with this key. */
  function FirstAttr(attrs: seq<Attr>, key: string): (r: Option<string>)
    ensures r.None? <==> forall i :: 0 <= i < |attrs| ==> attrs[i].key != key
    ensures r.Some? ==> exists i :: 0 <= i < |attrs| && attrs[i] == Attr(key, r.value) &&
                                    forall j :: 0 <= j < i ==> attrs[j].key != key
  {
    if attrs == [] then None
    else if attrs[0].key == key then Some(attrs[0].value)
    else
      var r := FirstAttr(attrs[1..], key);
      assert r.Some? ==> exists i :: 0 <= i < |attrs| - 1 && attrs[1..][i] == Attr(key, r.value) &&
                                    forall j :: 0 <= j < i ==> attrs[1..][j].key != key;
      r
  }

  /**
   * _gimo_xml_find_attr: with index -1 the first attribute with the key
   * anywhere; with index k only the k-th attribute, and only if it has the key.
   */
  function AttrAt(attrs: seq<Attr>, index: int, key: string): (r: Option<string>)
    requires index >= -1
    ensures index >= 0 ==> (r.Some? <==> index < |attrs| && attrs[index].key == key)
    ensures index >= 0 && r.Some? ==> attrs[index] == Attr(key, r.value)
  {
    if index == -1 then FirstAttr(attrs, key)
    else if index < |attrs| && attrs[index].key == key then Some(attrs[index].value)
    else None
  }

  /** The find_attr loop, which tests the key only where the index allows. */
  method FindAttr(attrs: seq<Attr>, index: int, key: string) returns (r: Option<string>)
    requires index >= -1
    ensures r == AttrAt(attrs, index, key)
  {
    var i := 0;
    while i < |attrs|
      invariant 0 <= i <= |attrs|
      invariant index == -1 ==> forall j :: 0 <= j < i ==> attrs[j].key != key
      invariant 0 <= index < i ==> attrs[index].key != key
    {
      if index == -1 || i == index {
        if attrs[i].key == key {
          return Some(attrs[i].value);
        }
      }
      i := i + 1;
    }
    return None;
  }

  /** _gimo_class_from_name: the named type, provided it is an object class. */
  function ClassFromName(types: Types, name: string): (r: Option<string>)
    ensures r.Some? ==> types.kindOf(r.value).ObjectKind?
  {
    match types.named(name)
    case None => None
    case Some(t) => if types.kindOf(t).ObjectKind? then Some(t) else None
  }

  /** g_value_transform from a string, with the conversions the archive registers. */
  function Transform(types: Types, t: string, text: string): (r: Option<Value>)
  {
    match types.kindOf(t)
    case BoolKind => Some(BoolValue(text == "TRUE"))
    case EnumKind(values) => Some(EnumValue(EnumFromString(values, text)))
    case FlagsKind(values) => Some(FlagsValue(FlagsFromString(values, text)))
    case StringKind => Some(StringValue(text))
    case NumberKind => Some(NumberValue(t, text))
    case _ => None
  }

  /** The conversion as the reader runs it, the enumeration and flags ones by their loops. */
  method Convert(types: Types, t: string, text: string) returns (r: Option<Value>)
    ensures r == Transform(types, t, text)
  {
    match types.kindOf(t)
    case BoolKind => r := Some(BoolValue(text == "TRUE"));
    case EnumKind(values) =>
      var e := TransformEnum(values, text);
      r := Some(EnumValue(e));
    case FlagsKind(values) =>
      var bits := TransformFlags(values, text);
      r := Some(FlagsValue(bits));
    case StringKind => r := Some(StringValue(text));
    case NumberKind => r := Some(NumberValue(t, text));
    case _ => r := None;
  }

  /**
   * _parse_frame_set_property with a name and a text: the parameter an
   * attribute gives, none when the class has no such property or the text
   * does not convert.
   */
  function AttrParam(types: Types, klass: string, a: Attr): (r: seq<Param>)
    ensures |r| <= 1
    ensures |r| == 1 ==> types.property(klass, a.key).Some? && r[0].name == types.property(klass, a.key).value.name
  {
    match types.property(klass, a.key)
    case None => []
    case Some(p) =>
      match Transform(types, p.valueType, a.value)
      case None => []
      case Some(v) => [Param(p.name, v)]
  }

  /** The parameters the attributes of an object element give, in attribute order. */
  function AttrParams(types: Types, klass: string, attrs: seq<Attr>): seq<Param>
  {
    if attrs == [] then []
    else AttrParams(types, klass, attrs[..|attrs| - 1]) + AttrParam(types, klass, attrs[|attrs| - 1])
  }

  /** Every parameter an object element's attributes give names a property of the class, at most one per attribute. */
  lemma {:induction false} AttrParamsNamed(types: Types, klass: string, attrs: seq<Attr>)
    ensures |AttrParams(types, klass, attrs)| <= |attrs|
    ensures forall q | q in AttrParams(types, klass, attrs) ::
              exists i :: 0 <= i < |attrs| && types.property(klass, attrs[i].key).Some? &&
                          q.name == types.property(klass, attrs[i].key).value.name
  {
    if attrs != [] {
      var n := |attrs|;
      AttrParamsNamed(types, klass, attrs[..n - 1]);
      forall q | q in AttrParams(types, klass, attrs)
        ensures exists i :: 0 <= i < |attrs| && types.property(klass, attrs[i].key).Some? &&
                            q.name == types.property(klass, attrs[i].key).value.name
      {
        if q in AttrParams(types, klass, attrs[..n - 1]) {
          var i :| 0 <= i < n - 1 && types.property(klass, attrs[..n - 1][i].key).Some? &&
                   q.name == types.property(klass, attrs[..n - 1][i].key).value.name;
          assert attrs[..n - 1][i] == attrs[i];
        } else {
          assert q in AttrParam(types, klass, attrs[n - 1]);
        }
      }
    }
  }

  function FrameKindOf(types: Types, t: string): FrameKind
  {
    match types.kindOf(t)
    case ObjectKind => ObjectFrame
    case ObjectArrayKind => ArrayFrame
    case _ => ValueFrame
  }

  /**
   * _parse_frame_create: a property frame takes the property's type; an
   * object frame collects its attributes as parameters; an object-array
   * frame takes its default class from a "class" first attribute.
   */
  function NewFrame(types: Types, id: Option<string>, t: string, prop: Option<PropSpec>, attrs: seq<Attr>): (f: Frame)
  {
    var ty := if prop.Some? then prop.value.valueType else t;
    var kind := FrameKindOf(types, ty);
    Frame(id, ty, kind, prop,
          if kind == ObjectFrame then AttrParams(types, ty, attrs) else [],
          [],
          if kind == ArrayFrame then
            (match AttrAt(attrs, 0, "class") case None => None case Some(c) => ClassFromName(types, c))
          else None)
  }

  /** The frame creation, with its loop over the attributes. */
  method CreateFrame(types: Types, id: Option<string>, t: string, prop: Option<PropSpec>, attrs: seq<Attr>)
    returns (f: Frame)
    ensures f == NewFrame(types, id, t, prop, attrs)
  {
    var ty := if prop.Some? then prop.value.valueType else t;
    var kind := FrameKindOf(types, ty);
    var params: seq<Param> := [];
    var elementType: Option<string> := None;
    if kind == ObjectFrame {
      var i := 0;
      while i < |attrs|
        invariant 0 <= i <= |attrs|
        invariant params == AttrParams(types, ty, attrs[..i])
      {
        assert attrs[..i + 1][..i] == attrs[..i];
        var p := types.property(ty, attrs[i].key);
        if p.Some? {
          var v := Convert(types, p.value.valueType, attrs[i].value);
          if v.Some? {
            params := params + [Param(p.value.name, v.value)];
          }
        }
        i := i + 1;
      }
      assert attrs[..i] == attrs;
    } else if kind == ArrayFrame {
      var c := FindAttr(attrs, 0, "class");
      if c.Some? {
        elementType := ClassFromName(types, c.value);
      }
    }
    f := Frame(id, ty, kind, prop, params, [], elementType);
  }

  /** What a start tag does to the frame stack: report an error, skip the element, or push a frame. */
  datatype Opening = Reject(report: Report) | Skip | Push(frame: Option<Frame>)

  /** The root element: "archive" with a version attribute, anywhere, equal to "1.0". */
  function RootOpening(el: string, attrs: seq<Attr>): Opening
  {
    if el != "archive" then Reject(Report(INVALID_ATTRIBUTE, "XmlArchive invalid root name: " + el))
    else match AttrAt(attrs, -1, "version")
      case None => Reject(Report(NO_ATTRIBUTE, "XmlArchive version not found"))
      case Some(v) =>
        if v != "1.0" then Reject(Report(INVALID_ATTRIBUTE, "XmlArchive invalid version: " + v))
        else Push(None)
  }

  /**
   * A top-level element: it must be "object"; its class is read from the
   * first attribute only and its id from the second only; a missing class
   * or a type that is not an object class skips the element.
   */
  function ObjectOpening(types: Types, el: string, attrs: seq<Attr>): Opening
  {
    if el != "object" then Reject(Report(INVALID_ATTRIBUTE, "XmlArchive invalid element: " + el))
    else match AttrAt(attrs, 0, "class")
      case None => Skip
      case Some(c) =>
        match ClassFromName(types, c)
        case None => Skip
        case Some(t) =>
          var id := AttrAt(attrs[1..], 0, "id");
          Push(Some(NewFrame(types, id, t, None, if id.Some? then attrs[2..] else attrs[1..])))
  }

  /**
   * An element inside an object is one of its properties; inside an object
   * array it is an element, of the class its first attribute names or of
   * the array's default class; anywhere else it is skipped.
   */
  function InnerOpening(types: Types, p: Frame, el: string, attrs: seq<Attr>): Opening
  {
    match p.kind
    case ObjectFrame =>
      (match types.property(p.typeName, el)
       case None => Skip
       case Some(prop) => Push(Some(NewFrame(types, None, "", Some(prop), attrs))))
    case ArrayFrame =>
      (match AttrAt(attrs, 0, "class")
       case Some(c) =>
         (match ClassFromName(types, c)
          case None => Skip
          case Some(t) => Push(Some(NewFrame(types, None, t, None, attrs[1..]))))
       case None =>
         (match p.elementType
          case None => Skip
          case Some(t) => Push(Some(NewFrame(types, None, t, None, attrs)))))
    case ValueFrame => Skip
  }

  function OpeningOf(types: Types, frames: seq<Option<Frame>>, el: string, attrs: seq<Attr>): Opening
  {
    if frames == [] then RootOpening(el, attrs)
    else match frames[|frames| - 1]
      case None => ObjectOpening(types, el, attrs)
      case Some(p) => InnerOpening(types, p, el, attrs)
  }

  /**
   * The shape of the frame stack: the root's empty frame at the bottom,
   * then frames; every frame below the top builds an object or an array;
   * the first is a top-level object; a frame fills a property of its parent
   * exactly when the parent is not an array; an array frame always fills a
   * property.
   */
  predicate WellStacked(types: Types, frames: seq<Option<Frame>>)
  {
    (|frames| > 0 ==> frames[0].None?) &&
    (|frames| > 1 ==> frames[1].Some? && frames[1].value.prop.None? && frames[1].value.kind == ObjectFrame) &&
    (forall i :: 1 <= i < |frames| ==> Placed(types, frames[i])) &&
    (forall i :: 1 <= i < |frames| - 1 ==> Container(frames[i])) &&
    (forall j :: 2 <= j < |frames| ==> Linked(frames, j))
  }

  /** A frame; an array frame fills a property; a default element class is an object class. */
  predicate Placed(types: Types, f: Option<Frame>)
  {
    f.Some? && (f.value.kind == ArrayFrame ==> f.value.prop.Some?) &&
    (f.value.elementType.Some? ==> types.kindOf(f.value.elementType.value).ObjectKind?)
  }

  predicate Container(f: Option<Frame>)
  {
    f.Some? && f.value.kind != ValueFrame
  }

  /** The j-th frame fills a property of the one below exactly when that one is not an array. */
  predicate Linked(frames: seq<Option<Frame>>, j: int)
    requires 1 <= j < |frames|
  {
    frames[j].Some? && frames[j - 1].Some? &&
    (frames[j].value.prop.None? <==> frames[j - 1].value.kind == ArrayFrame)
  }

  /** The reader's state: the frames, the depth, the error flag and the archive's table. */
  datatype Snapshot = Snapshot(frames: seq<Option<Frame>>, depth: int, error: bool, objects: Archive.Objects)

  predicate Sound(types: Types, s: Snapshot)
  {
    0 <= |s.frames| <= s.depth && WellStacked(types, s.frames)
  }

  lemma PushKeepsStack(types: Types, frames: seq<Option<Frame>>, el: string, attrs: seq<Attr>)
    requires WellStacked(types, frames) && OpeningOf(types, frames, el, attrs).Push?
    ensures WellStacked(types, frames + [OpeningOf(types, frames, el, attrs).frame])
  {
    var g := frames + [OpeningOf(types, frames, el, attrs).frame];
    var n := |frames|;
    if n > 0 {
      assert forall i :: 0 <= i < n ==> g[i] == frames[i];
      if frames[n - 1].None? {
        assert n == 1;
      } else {
        assert Placed(types, frames[n - 1]);
        var p := frames[n - 1].value;
        assert p.kind != ValueFrame;
        assert Placed(types, g[n]);
        assert Container(g[n - 1]);
        assert Linked(g, n);
        forall j | 2 <= j < n
          ensures Linked(g, j)
        {
          assert Linked(frames, j);
        }
      }
    }
  }

  /**
   * _parse_frame_set_property with an object: an array frame appends it;
   * an object frame records it under the property, as an object or a boxed
   * value by the property's type, and ignores any other type.
   */
  function Attach(types: Types, p: Frame, prop: Option<PropSpec>, payload: Payload): (r: Frame)
    requires p.kind != ValueFrame
    requires p.kind == ArrayFrame ==> prop.None? && payload.Single?
    requires p.kind == ObjectFrame ==> prop.Some?
    ensures r.kind == p.kind && r.prop == p.prop && r.id == p.id && r.typeName == p.typeName && r.elementType == p.elementType
  {
    if p.kind == ArrayFrame then p.(elements := p.elements + [payload.obj])
    else match types.kindOf(prop.value.valueType)
      case ObjectKind => p.(params := p.params + [Param(prop.value.name, ObjectValue(payload))])
      case BoxedKind => p.(params := p.params + [Param(prop.value.name, BoxedValue(payload))])
      case ObjectArrayKind => p.(params := p.params + [Param(prop.value.name, BoxedValue(payload))])
      case _ => p
  }

  /** _parse_frame_set_property with a text for a known property: the converted value, if it converts. */
  function SetText(types: Types, p: Frame, prop: PropSpec, text: string): (r: Frame)
    ensures r.kind == p.kind && r.prop == p.prop && r.id == p.id && r.typeName == p.typeName && r.elementType == p.elementType
  {
    match Transform(types, prop.valueType, text)
    case None => p
    case Some(v) => p.(params := p.params + [Param(prop.name, v)])
  }

  /** Replacing a frame below the top by one of the same kind and property keeps the stack's shape. */
  lemma ReplaceKeepsStack(types: Types, frames: seq<Option<Frame>>, k: nat, f: Frame)
    requires WellStacked(types, frames) && 1 <= k < |frames| && frames[k].Some?
    requires f.kind == frames[k].value.kind && f.prop == frames[k].value.prop && f.elementType == frames[k].value.elementType
    ensures WellStacked(types, frames[k := Some(f)])
  {
    var g := frames[k := Some(f)];
    forall j | 2 <= j < |g|
      ensures Linked(g, j)
    {
      assert Linked(frames, j);
    }
  }

  lemma PopKeepsStack(types: Types, frames: seq<Option<Frame>>)
    requires WellStacked(types, frames) && |frames| > 0
    ensures WellStacked(types, frames[..|frames| - 1])
  {
    var g := frames[..|frames| - 1];
    forall j | 2 <= j < |g|
      ensures Linked(g, j)
    {
      assert Linked(frames, j);
    }
  }

  /**
   * An end tag that closes the top frame (frame count equal to depth):
   * unless the error flag is set or it is the root, an object frame builds
   * its object and hands it to its parent, or, at top level, adds it to the
   * archive under its id, a taken id setting the error flag; an array frame
   * hands its objects to its parent.  The frame is popped in every case.
   */
  function Closing(types: Types, frames: seq<Option<Frame>>, error: bool, objects: Archive.Objects)
    : (r: (seq<Option<Frame>>, bool, Archive.Objects))
    requires WellStacked(types, frames) && |frames| > 0
    ensures WellStacked(types, r.0) && |r.0| == |frames| - 1
    ensures error ==> r.1
  {
    var n := |frames|;
    PopKeepsStack(types, frames);
    if error || frames[n - 1].None? then (frames[..n - 1], error, objects)
    else
      var f := frames[n - 1].value;
      if f.kind == ObjectFrame then
        match types.make(f.typeName, f.params)
        case None => (frames[..n - 1], error, objects)
        case Some(obj) =>
          if n > 2 then
            assert Linked(frames, n - 1) && Container(frames[n - 2]);
            var p := Attach(types, frames[n - 2].value, f.prop, Single(obj));
            ReplaceKeepsStack(types, frames, n - 2, p);
            PopKeepsStack(types, frames[n - 2 := Some(p)]);
            (frames[n - 2 := Some(p)][..n - 1], error, objects)
          else
            var added := Archive.Add(objects, f.id, obj);
            (frames[..n - 1], !added.1, added.0)
      else if f.kind == ArrayFrame && n > 2 then
        assert Linked(frames, n - 1) && Container(frames[n - 2]) && Placed(types, frames[n - 1]);
        var p := Attach(types, frames[n - 2].value, f.prop, Many(f.elements));
        ReplaceKeepsStack(types, frames, n - 2, p);
        PopKeepsStack(types, frames[n - 2 := Some(p)]);
        (frames[n - 2 := Some(p)][..n - 1], error, objects)
      else (frames[..n - 1], error, objects)
  }

  /** Text inside a property frame of a scalar type is converted and recorded on the parent object. */
  function Texting(types: Types, frames: seq<Option<Frame>>, error: bool, text: string): (r: seq<Option<Frame>>)
    requires WellStacked(types, frames)
    ensures WellStacked(types, r) && |r| == |frames|
  {
    var n := |frames|;
    if error || n <= 2 then frames
    else
      var f := frames[n - 1].value;
      if f.prop.Some? && f.kind == ValueFrame then
        assert Linked(frames, n - 1) && Container(frames[n - 2]);
        var p := SetText(types, frames[n - 2].value, f.prop.value, text);
        ReplaceKeepsStack(types, frames, n - 2, p);
        frames[n - 2 := Some(p)]
      else frames
  }

  /** One event applied to the reader's state. */
  function Apply(types: Types, s: Snapshot, e: Event): (r: Snapshot)
    requires Sound(types, s) && (e.EndTag? ==> s.depth > 0)
    ensures Sound(types, r) && r.depth == s.depth + Step(e)
    ensures s.error ==> r.error
  {
    match e
    case StartTag(el, attrs) =>
      if s.error then s.(depth := s.depth + 1)
      else
        (match OpeningOf(types, s.frames, el, attrs)
         case Reject(_) => s.(depth := s.depth + 1, error := true)
         case Skip => s.(depth := s.depth + 1)
         case Push(f) =>
           PushKeepsStack(types, s.frames, el, attrs);
           s.(frames := s.frames + [f], depth := s.depth + 1))
    case EndTag(_) =>
      if |s.frames| != s.depth then s.(depth := s.depth - 1)
      else
        var c := Closing(types, s.frames, s.error, s.objects);
        Snapshot(c.0, s.depth - 1, c.1, c.2)
    case Text(text) =>
      s.(frames := Texting(types, s.frames, s.error, text))
  }

  /** The error a start tag reports, if any. */
  function Raised(types: Types, s: Snapshot, el: string, attrs: seq<Attr>): Option<Report>
  {
    if s.error then None
    else match OpeningOf(types, s.frames, el, attrs)
      case Reject(r) => Some(r)
      case _ => None
  }

  /** The reader's state after a nested event sequence, starting from an empty stack over the given table. */
  function Run(types: Types, objects: Archive.Objects, events: seq<Event>): (r: Snapshot)
    requires Nested(events)
    ensures Sound(types, r) && r.depth == Balance(events)
  {
    if events == [] then Snapshot([], 0, false, objects)
    else
      var n := |events|;
      NestedPrefix(events, n - 1);
      assert events[..n - 1][..|events[..n - 1]|] == events[..n - 1];
      assert events[n - 1].EndTag? ==> Balance(events[..n - 1]) > 0;
      Apply(types, Run(types, objects, events[..n - 1]), events[n - 1])
  }

  lemma RunSnoc(types: Types, objects: Archive.Objects, events: seq<Event>, e: Event)
    requires Nested(events + [e])
    ensures Nested(events) && Sound(types, Run(types, objects, events))
    ensures e.EndTag? ==> Run(types, objects, events).depth > 0
    ensures Run(types, objects, events + [e]) == Apply(types, Run(types, objects, events), e)
  {
    assert (events + [e])[..|events|] == events;
    NestedPrefix(events + [e], |events|);
  }

  /** Once set, the error flag stays set for the rest of the events. */
  lemma {:induction false} ErrorSticky(types: Types, objects: Archive.Objects, events: seq<Event>, m: nat)
    requires Nested(events) && m <= |events|
    requires Nested(events[..m]) && Run(types, objects, events[..m]).error
    ensures Run(types, objects, events).error
    decreases |events| - m
  {
    NestedPrefix(events, m);
    if m < |events| {
      NestedPrefix(events, m + 1);
      assert events[..m + 1] == events[..m] + [events[m]];
      RunSnoc(types, objects, events[..m], events[m]);
      ErrorSticky(types, objects, events, m + 1);
    } else {
      assert events[..m] == events;
    }
  }

  /**
   * A document the tokenizer accepted to the end leaves no frame open: the
   * depth is back to 0 and the stack is never deeper than the depth.
   */
  lemma CompleteRunClosesAll(types: Types, objects: Archive.Objects, chunks: seq<Chunk>)
    requires WellFormed(chunks) && AllParsed(chunks)
    ensures Run(types, objects, Events(chunks)).frames == []
  {
  }

  /** An archive cut off after its root tag leaves the root's frame open. */
  lemma TruncatedRootStaysOpen(types: Types, objects: Archive.Objects)
    ensures Nested([StartTag("archive", [Attr("version", "1.0")])])
    ensures Run(types, objects, [StartTag("archive", [Attr("version", "1.0")])]).frames == [None]
  {
    var events := [StartTag("archive", [Attr("version", "1.0")])];
    assert events[..0] == [];
    assert AttrAt([Attr("version", "1.0")], -1, "version") == Some("1.0");
  }

  lemma ApplyKeepsObjects(types: Types, s: Snapshot, e: Event)
    requires Sound(types, s) && (e.EndTag? ==> s.depth > 0)
    ensures forall k | k in s.objects :: k in Apply(types, s, e).objects && Apply(types, s, e).objects[k] == s.objects[k]
  {
  }

  /** Adding never removes: every object in the table stays under its id for the rest of the run. */
  lemma {:induction false} RunKeepsObjects(types: Types, objects: Archive.Objects, events: seq<Event>)
    requires Nested(events)
    ensures forall k | k in objects :: k in Run(types, objects, events).objects &&
                                       Run(types, objects, events).objects[k] == objects[k]
  {
    if events != [] {
      var n := |events|;
      assert events == events[..n - 1] + [events[n - 1]];
      RunSnoc(types, objects, events[..n - 1], events[n - 1]);
      RunKeepsObjects(types, objects, events[..n - 1]);
      ApplyKeepsObjects(types, Run(types, objects, events[..n - 1]), events[n - 1]);
    }
  }

  /**
   * Closing a top-level object whose id the archive already holds sets the
   * error flag and keeps the stored object.
   */
  lemma DuplicateIdFails(types: Types, s: Snapshot, el: string)
    requires Sound(types, s) && |s.frames| == s.depth == 2 && !s.error
    requires s.frames[1].value.id in s.objects
    requires types.make(s.frames[1].value.typeName, s.frames[1].value.params).Some?
    ensures Apply(types, s, EndTag(el)).error
    ensures Apply(types, s, EndTag(el)).objects == s.objects
    ensures Apply(types, s, EndTag(el)).frames == [None]
  {
  }

  /** The root must be "archive" with version "1.0"; the version may be any attribute. */
  lemma RootRule(types: Types, el: string, attrs: seq<Attr>)
    ensures OpeningOf(types, [], el, attrs).Push? <==>
              el == "archive" && exists i :: 0 <= i < |attrs| && attrs[i] == Attr("version", "1.0") &&
                                           forall j :: 0 <= j < i ==> attrs[j].key != "version"
    ensures OpeningOf(types, [], el, attrs).Skip? == false
  {
    if el == "archive" && FirstAttr(attrs, "version") == Some("1.0") {
    } else if el == "archive" && FirstAttr(attrs, "version").Some? {
      var v := FirstAttr(attrs, "version").value;
      forall i | 0 <= i < |attrs| && attrs[i] == Attr("version", "1.0")
        ensures exists j :: 0 <= j < i && attrs[j].key == "version"
      {
        var w :| 0 <= w < |attrs| && attrs[w] == Attr("version", v) && forall j :: 0 <= j < w ==> attrs[j].key != "version";
        assert w != i;
        assert w < i;
      }
    }
  }

  /**
   * A top-level object is pushed only when its first attribute is "class"
   * and names an object class; its id is the second attribute when that is
   * "id"; a non-"object" element is an INVALID_ATTRIBUTE error.
   */
  lemma ObjectRule(types: Types, el: string, attrs: seq<Attr>)
    ensures el != "object" ==> OpeningOf(types, [None], el, attrs).Reject? &&
                               OpeningOf(types, [None], el, attrs).report.code == INVALID_ATTRIBUTE
    ensures OpeningOf(types, [None], el, attrs).Push? <==>
              el == "object" && |attrs| > 0 && attrs[0].key == "class" && ClassFromName(types, attrs[0].value).Some?
    ensures OpeningOf(types, [None], el, attrs).Push? ==>
              OpeningOf(types, [None], el, attrs).frame.Some? &&
              OpeningOf(types, [None], el, attrs).frame.value.id ==
                (if |attrs| > 1 && attrs[1].key == "id" then Some(attrs[1].value) else None)
  {
    if el == "object" && |attrs| > 0 && attrs[0].key == "class" {
      assert AttrAt(attrs[1..], 0, "id").Some? <==> |attrs| > 1 && attrs[1].key == "id";
    }
  }

  /** A top-level object without a class, or of a type that is not an object class, is skipped without error. */
  lemma UnknownClassSkipped(types: Types, attrs: seq<Attr>)
    requires |attrs| == 0 || attrs[0].key != "class" || ClassFromName(types, attrs[0].value).None?
    ensures OpeningOf(types, [None], "object", attrs) == Skip
  {
  }

  class ParseContext {
    const archive: Archive.Archive
    var frames: seq<Option<Frame>>
    var depth: int
    var error: bool

    function Snap(): Snapshot
      reads this, archive
    {
      Snapshot(frames, depth, error, archive.objects)
    }

    predicate Valid(types: Types)
      reads this, archive
    {
      Sound(types, Snap())
    }

    /** _parse_context_create: no frames, depth 0, no error, reading into the given archive. */
    constructor (archive: Archive.Archive)
      ensures this.archive == archive && frames == [] && depth == 0 && !error
    {
      this.archive := archive;
      frames := [];
      depth := 0;
      error := false;
    }

    /** _gimo_xml_start_element. */
    method StartElement(types: Types, el: string, attrs: seq<Attr>, err: LastError)
      requires Valid(types)
      modifies this, err
      ensures Valid(types)
      ensures Snap() == Apply(types, old(Snap()), StartTag(el, attrs))
      ensures Raised(types, old(Snap()), el, attrs).None? ==> unchanged(err)
      ensures Raised(types, old(Snap()), el, attrs).Some? ==>
                var r := Raised(types, old(Snap()), el, attrs).value;
                err.code == r.code && err.message == Some(r.message)
    {
      ghost var s := Snap();
      depth := depth + 1;
      if error {
        return;
      }
      var o: Opening;
      if |frames| > 0 {
        var top := frames[|frames| - 1];
        if top.Some? {
          o := StartInner(types, top.value, el, attrs);
        } else {
          o := StartObject(types, el, attrs);
        }
      } else {
        o := StartRoot(el, attrs);
      }
      assert o == OpeningOf(types, s.frames, el, attrs);
      match o
      case Reject(r) =>
        err.SetErrorFull(r.code, Some(r.message));
        error := true;
      case Skip =>
      case Push(f) =>
        PushKeepsStack(types, s.frames, el, attrs);
        frames := frames + [f];
    }

    /** The root branch of the start handler. */
    method StartRoot(el: string, attrs: seq<Attr>) returns (o: Opening)
      ensures o == RootOpening(el, attrs)
    {
      if el != "archive" {
        return Reject(Report(INVALID_ATTRIBUTE, "XmlArchive invalid root name: " + el));
      }
      var version := FindAttr(attrs, -1, "version");
      if version.None? {
        return Reject(Report(NO_ATTRIBUTE, "XmlArchive version not found"));
      }
      if version.value != "1.0" {
        return Reject(Report(INVALID_ATTRIBUTE, "XmlArchive invalid version: " + version.value));
      }
      o := Push(None);
    }

    /** The object-begin branch: class at the first attribute, then id at the next. */
    method StartObject(types: Types, el: string, attrs: seq<Attr>) returns (o: Opening)
      ensures o == ObjectOpening(types, el, attrs)
    {
      if el != "object" {
        return Reject(Report(INVALID_ATTRIBUTE, "XmlArchive invalid element: " + el));
      }
      var klass := FindAttr(attrs, 0, "class");
      if klass.None? {
        return Skip;
      }
      var t := ClassFromName(types, klass.value);
      if t.None? {
        return Skip;
      }
      var rest := attrs[1..];
      var id := FindAttr(rest, 0, "id");
      if id.Some? {
        rest := rest[1..];
      }
      var f := CreateFrame(types, id, t.value, None, rest);
      o := Push(Some(f));
    }

    /** The property and array-element branches. */
    method StartInner(types: Types, p: Frame, el: string, attrs: seq<Attr>) returns (o: Opening)
      ensures o == InnerOpening(types, p, el, attrs)
    {
      if p.kind == ObjectFrame {
        var prop := types.property(p.typeName, el);
        if prop.None? {
          return Skip;
        }
        var f := CreateFrame(types, None, "", prop, attrs);
        o := Push(Some(f));
      } else if p.kind == ArrayFrame {
        var rest := attrs;
        var elType: Option<string>;
        var c := FindAttr(attrs, 0, "class");
        if c.Some? {
          elType := ClassFromName(types, c.value);
          if elType.None? {
            return Skip;
          }
          rest := attrs[1..];
        } else {
          elType := p.elementType;
          if elType.None? {
            return Skip;
          }
        }
        var f := CreateFrame(types, None, elType.value, None, rest);
        o := Push(Some(f));
      } else {
        o := Skip;
      }
    }

    /** _gimo_xml_end_element. */
    method EndElement(types: Types, el: string)
      requires Valid(types) && depth > 0
      modifies this, archive
      ensures Snap() == Apply(types, old(Snap()), EndTag(el))
      ensures Valid(types)
    {
      ghost var s := Snap();
      if |frames| != depth {
        depth := depth - 1;
        assert Snap() == Apply(types, s, EndTag(el));
        return;
      }
      CloseTop(types);
      depth := depth - 1;
      assert Snap() == Apply(types, s, EndTag(el));
    }

    /**
     * The closing of the innermost frame: a finished object is built and
     * attached to its parent, or stored in the archive under its id at the
     * top level; a finished array is attached to its parent.
     */
    method CloseTop(types: Types)
      requires WellStacked(types, frames) && |frames| > 0
      modifies this, archive
      ensures (frames, error, archive.objects) == Closing(types, old(frames), old(error), old(archive.objects))
      ensures depth == old(depth)
    {
      var n := |frames|;
      var top := frames[n - 1];
      assert n > 2 ==> Linked(frames, n - 1) && Container(frames[n - 2]) && Placed(types, frames[n - 1]);
      if !error && top.Some? {
        var f := top.value;
        if f.kind == ObjectFrame {
          var obj := types.make(f.typeName, f.params);
          if obj.Some? {
            if n > 2 {
              frames := frames[n - 2 := Some(Attach(types, frames[n - 2].value, f.prop, Single(obj.value)))];
            } else {
              var added := archive.AddObject(f.id, obj.value);
              if !added {
                error := true;
              }
            }
          }
        } else if f.kind == ArrayFrame {
          if n > 2 {
            frames := frames[n - 2 := Some(Attach(types, frames[n - 2].value, f.prop, Many(f.elements)))];
          }
        }
      }
      frames := frames[..n - 1];
    }

    /** _gimo_xml_handle_char. */
    method HandleText(types: Types, text: string)
      requires Valid(types)
      modifies this
      ensures Snap() == Apply(types, old(Snap()), Text(text))
      ensures Valid(types)
    {
      ghost var s := Snap();
      if error {
        return;
      }
      var n := |frames|;
      if n > 2 {
        var f := frames[n - 1].value;
        if f.prop.Some? && f.kind == ValueFrame {
          assert Linked(frames, n - 1) && Container(frames[n - 2]);
          var v := Convert(types, f.prop.value.valueType, text);
          var p := frames[n - 2].value;
          if v.Some? {
            frames := frames[n - 2 := Some(p.(params := p.params + [Param(f.prop.value.name, v.value)]))];
          }
          assert Snap() == Apply(types, s, Text(text));
        }
      }
    }

    /** One event, dispatched to its handler. */
    method Feed(types: Types, e: Event, err: LastError)
      requires Valid(types) && (e.EndTag? ==> depth > 0)
      modifies this, archive, err
      ensures Snap() == Apply(types, old(Snap()), e)
      ensures Valid(types)
    {
      match e
      case StartTag(el, attrs) => StartElement(types, el, attrs, err);
      case EndTag(el) => EndElement(types, el);
      case Text(text) => HandleText(types, text);
    }
  }

  lemma PrefixNested(chunks: seq<Chunk>, i: nat, k: nat)
    requires Nested(Events(chunks)) && i < |chunks| && k <= |chunks[i].events|
    ensures Nested(Events(chunks[..i]) + chunks[i].events[..k])
  {
    var p := Events(chunks[..i]) + chunks[i].events[..k];
    EventsPrefix(chunks, i);
    EventsIsPrefix(chunks, i + 1);
    var e := Events(chunks);
    assert p == e[..|p|];
    NestedPrefix(e, |p|);
  }

  lemma FeedStep(types: Types, objects: Archive.Objects, events: seq<Event>, chunk: seq<Event>, k: nat)
    requires Nested(events + chunk) && k < |chunk|
    ensures Nested(events + chunk[..k]) && Nested(events + chunk[..k + 1])
    ensures chunk[k].EndTag? ==> Run(types, objects, events + chunk[..k]).depth > 0
    ensures Run(types, objects, events + chunk[..k + 1]) == Apply(types, Run(types, objects, events + chunk[..k]), chunk[k])
  {
    assert (events + chunk)[..|events| + k + 1] == events + chunk[..k + 1];
    NestedPrefix(events + chunk, |events| + k + 1);
    assert events + chunk[..k + 1] == events + chunk[..k] + [chunk[k]];
    RunSnoc(types, objects, events + chunk[..k], chunk[k]);
  }

  /** The events of one chunk fed to the handlers, in order. */
  method FeedChunk(types: Types, ctx: ParseContext, events: seq<Event>, chunk: seq<Event>, err: LastError,
                   ghost objects: Archive.Objects)
    requires Nested(events + chunk) && Nested(events)
    requires ctx.Valid(types) && ctx.Snap() == Run(types, objects, events)
    modifies ctx, ctx.archive, err
    ensures ctx.Valid(types) && ctx.Snap() == Run(types, objects, events + chunk)
  {
    var k := 0;
    assert events + chunk[..0] == events;
    while k < |chunk|
      invariant 0 <= k <= |chunk| && ctx.Valid(types)
      invariant Nested(events + chunk[..k]) && ctx.Snap() == Run(types, objects, events + chunk[..k])
    {
      FeedStep(types, objects, events, chunk, k);
      ctx.Feed(types, chunk[k], err);
      k := k + 1;
    }
    assert chunk[..k] == chunk;
  }

  /** The message a rejected chunk is reported with: the tokenizer's description and line. */
  function ParseErrorMessage(status: Status): string
    requires status.Failed?
  {
    "XmlArchive parse error: " + status.reason + " at line " + Decimal(status.line) + "\n"
  }

  /** One chunk's events fed to the handlers: the run extends by the chunk. */
  method ParseChunk(types: Types, ctx: ParseContext, chunks: seq<Chunk>, i: nat, err: LastError,
                    ghost objects: Archive.Objects)
    requires WellFormed(chunks) && i < |chunks| && Nested(Events(chunks[..i]))
    requires ctx.Valid(types) && ctx.Snap() == Run(types, objects, Events(chunks[..i]))
    modifies ctx, ctx.archive, err
    ensures Nested(Events(chunks[..i + 1]))
    ensures ctx.Valid(types) && ctx.Snap() == Run(types, objects, Events(chunks[..i + 1]))
  {
    PrefixNested(chunks, i, |chunks[i].events|);
    assert chunks[i].events[..|chunks[i].events|] == chunks[i].events;
    EventsPrefix(chunks, i);
    FeedChunk(types, ctx, Events(chunks[..i]), chunks[i].events, err, objects);
  }

  /** One chunk fed; a chunk the tokenizer rejected is reported as LOAD with its reason and line. */
  method ParseNext(types: Types, ctx: ParseContext, chunks: seq<Chunk>, i: nat, err: LastError,
                   ghost objects: Archive.Objects)
    returns (status: Status)
    requires WellFormed(chunks) && i < |chunks| && Nested(Events(chunks[..i]))
    requires ctx.Snap() == Run(types, objects, Events(chunks[..i]))
    modifies ctx, ctx.archive, err
    ensures status == chunks[i].status && Nested(Events(chunks[..i + 1]))
    ensures ctx.Snap() == Run(types, objects, Events(chunks[..i + 1]))
    ensures status.Failed? ==> err.code == LOAD && err.message == Some(ParseErrorMessage(status))
  {
    ParseChunk(types, ctx, chunks, i, err, objects);
    status := chunks[i].status;
    if status.Failed? {
      err.SetErrorFull(LOAD, Some(ParseErrorMessage(status)));
    }
  }

  /**
   * The read loop of _gimo_xmlarchive_read: chunks are fed until the last
   * one, a chunk the tokenizer rejects (reported as LOAD with its reason)
   * or a handler error.  The state is the run over the chunks processed.
   */
  method Parse(types: Types, archive: Archive.Archive, chunks: seq<Chunk>, err: LastError)
    returns (ctx: ParseContext, processed: nat, status: Status)
    requires |chunks| > 0 && WellFormed(chunks)
    modifies archive, err
    ensures ctx.archive == archive
    ensures 0 < processed <= |chunks| && status == chunks[processed - 1].status
    ensures forall i :: 0 <= i < processed - 1 ==> chunks[i].status.Parsed?
    ensures Nested(Events(chunks[..processed]))
    ensures ctx.Snap() == Run(types, old(archive.objects), Events(chunks[..processed]))
    ensures processed < |chunks| ==> status.Failed? || ctx.error
    ensures status.Failed? ==> err.code == LOAD && err.message == Some(ParseErrorMessage(status))
  {
    ghost var objects := archive.objects;
    ctx := new ParseContext(archive);
    processed := 0;
    status := Parsed;
    assert Events(chunks[..0]) == [];
    while processed < |chunks| && (processed == 0 || (status.Parsed? && !ctx.error))
      invariant 0 <= processed <= |chunks| && ctx.archive == archive
      invariant forall i :: 0 <= i < processed - 1 ==> chunks[i].status.Parsed?
      invariant Nested(Events(chunks[..processed]))
      invariant ctx.Snap() == Run(types, objects, Events(chunks[..processed]))
      invariant processed > 0 ==> status == chunks[processed - 1].status
      invariant status.Failed? ==> err.code == LOAD && err.message == Some(ParseErrorMessage(status))
    {
      status := ParseNext(types, ctx, chunks, processed, err, objects);
      processed := processed + 1;
    }
  }

  /**
   * _gimo_xmlarchive_read with the final assertion taken on success only:
   * a file that cannot be opened is OPEN_FILE; otherwise the read succeeds
   * exactly when every chunk was accepted and no handler raised an error,
   * and then the archive holds the run's objects and no frame is left open.
   * Objects are added to the archive as their elements close and are never
   * taken back, so after a failed read the archive holds what the run over
   * the chunks fed so far (`processed` of them) added.
   */
  method Read(types: Types, archive: Archive.Archive, isOpen: bool, chunks: seq<Chunk>, err: LastError)
    returns (ok: bool, processed: nat)
    requires |chunks| > 0 && WellFormed(chunks)
    modifies archive, err
    ensures !isOpen ==> !ok && processed == 0 && archive.objects == old(archive.objects) && err.code == OPEN_FILE
    ensures isOpen ==> 0 < processed <= |chunks| && Nested(Events(chunks[..processed])) &&
                       archive.objects == Run(types, old(archive.objects), Events(chunks[..processed])).objects
    ensures ok <==> isOpen && AllParsed(chunks) && !Run(types, old(archive.objects), Events(chunks)).error
    ensures ok ==> processed == |chunks| && archive.objects == Run(types, old(archive.objects), Events(chunks)).objects
    ensures ok ==> Run(types, old(archive.objects), Events(chunks)).frames == []
    ensures forall k | k in old(archive.objects) :: k in archive.objects && archive.objects[k] == old(archive.objects)[k]
  {
    if !isOpen {
      err.SetError(OPEN_FILE);
      return false, 0;
    }
    ghost var objects := archive.objects;
    var ctx, status;
    ctx, processed, status := Parse(types, archive, chunks, err);
    ok := status.Parsed? && !ctx.error;
    RunKeepsObjects(types, objects, Events(chunks[..processed]));
    ReadOutcome(types, objects, chunks, processed, ctx.error);
    if ok {
      assert chunks[..processed] == chunks;
    }
  }

  /**
   * What the read loop's stopping point tells about the whole file: the
   * loop stopped early only at a rejected chunk or a handler error, an
   * error stays, and a run over the whole file closes every frame.
   */
  lemma ReadOutcome(types: Types, objects: Archive.Objects, chunks: seq<Chunk>, processed: nat, error: bool)
    requires WellFormed(chunks) && 0 < processed <= |chunks|
    requires forall i :: 0 <= i < processed - 1 ==> chunks[i].status.Parsed?
    requires Nested(Events(chunks[..processed]))
    requires error == Run(types, objects, Events(chunks[..processed])).error
    requires processed < |chunks| ==> chunks[processed - 1].status.Failed? || error
    ensures chunks[processed - 1].status.Parsed? && !error <==>
              AllParsed(chunks) && !Run(types, objects, Events(chunks)).error
    ensures chunks[processed - 1].status.Parsed? && !error ==>
              processed == |chunks| && Run(types, objects, Events(chunks)).frames == []
  {
    if processed < |chunks| {
      if error {
        StoppedByError(types, objects, chunks, processed);
      } else {
        assert !AllParsed(chunks);
      }
    } else {
      assert chunks[..processed] == chunks;
      ReadToEnd(types, objects, chunks, error);
    }
  }

  /** A loop that fed every chunk read the whole file. */
  lemma ReadToEnd(types: Types, objects: Archive.Objects, chunks: seq<Chunk>, error: bool)
    requires WellFormed(chunks) && 0 < |chunks|
    requires forall i :: 0 <= i < |chunks| - 1 ==> chunks[i].status.Parsed?
    requires error == Run(types, objects, Events(chunks)).error
    ensures chunks[|chunks| - 1].status.Parsed? <==> AllParsed(chunks)
    ensures AllParsed(chunks) ==> Run(types, objects, Events(chunks)).frames == []
  {
    if AllParsed(chunks) {
      CompleteRunClosesAll(types, objects, chunks);
    }
  }

  /** A handler error in the chunks fed so far is an error of the whole file's run. */
  lemma StoppedByError(types: Types, objects: Archive.Objects, chunks: seq<Chunk>, processed: nat)
    requires WellFormed(chunks) && processed <= |chunks|
    requires Nested(Events(chunks[..processed])) && Run(types, objects, Events(chunks[..processed])).error
    ensures Run(types, objects, Events(chunks)).error
  {
    EventsIsPrefix(chunks, processed);
    ErrorSticky(types, objects, Events(chunks), |Events(chunks[..processed])|);
  }

  /**
   * _gimo_xmlarchive_read as written: the frame stack is asserted empty
   * after the loop whatever the loop's outcome, so a rejected chunk with an
   * element still open aborts the program.
   */
  method ReadAsWritten(types: Types, archive: Archive.Archive, isOpen: bool, chunks: seq<Chunk>, err: LastError)
    returns (ok: bool, aborts: bool)
    requires |chunks| > 0 && WellFormed(chunks)
    modifies archive, err
    ensures !isOpen ==> !ok && !aborts
    ensures isOpen && chunks[0].status.Failed? ==>
              !ok && Nested(chunks[0].events) && (aborts <==> Run(types, old(archive.objects), chunks[0].events).frames != [])
    ensures ok ==> !aborts
  {
    if !isOpen {
      err.SetError(OPEN_FILE);
      return false, false;
    }
    ghost var objects := archive.objects;
    var ctx, processed, status := Parse(types, archive, chunks, err);
    aborts := ctx.frames != [];
    ok := status.Parsed? && !ctx.error;
    if chunks[0].status.Failed? {
      assert processed == 1;
      EventsPrefix(chunks, 0);
      assert chunks[..0] == [];
      assert Events(chunks[..1]) == chunks[0].events;
    }
    if ok {
      assert processed == |chunks|;
      assert chunks[..processed] == chunks;
      assert AllParsed(chunks);
      CompleteRunClosesAll(types, objects, chunks);
    }
  }

  /** A file cut off after its root tag makes the reader as written abort. */
  method TruncatedArchiveAborts(types: Types, archive: Archive.Archive, err: LastError) returns (aborts: bool)
    modifies archive, err
    ensures aborts
  {
    var chunk := Chunk([StartTag("archive", [Attr("version", "1.0")])], Failed("unclosed token", 1));
    TruncatedRootStaysOpen(types, archive.objects);
    assert [chunk][..0] == [];
    assert Events([chunk]) == chunk.events;
    var ok;
    ok, aborts := ReadAsWritten(types, archive, true, [chunk], err);
  }
}
