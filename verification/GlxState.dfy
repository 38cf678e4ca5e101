/** GLX bookkeeping of one connection, glx_protocol.cpp, on values: contexts,
    drawables, current bindings and the shared registry of resource ids. */
module GlxState {
  import opened Wire
  import opened CyclicIds

  const ROOT_VISUAL: Word32 := 3
  const RGBA_TYPE: Word32 := 0x8014
  const CONFIGS: nat := 8
  const ID_BLOCK: nat := 0x20_0000
  const CLIENT_LIMIT: nat := 4096
  const SERVER_LIMIT: nat := 65536
  const ATTRIBUTE_LIMIT: nat := 256
  const PBUFFER_SIDE: nat := 4096

  const GLX_WIDTH: Word32 := 0x801d
  const GLX_HEIGHT: Word32 := 0x801e
  const GLX_EVENT_MASK: Word32 := 0x801f
  const MAJOR: Word32 := 0x2091
  const MINOR: Word32 := 0x2092
  const PROFILE: Word32 := 0x9126
  const FLAGS: Word32 := 0x2094

  datatype ResourceKind = GlxContext | GlxDrawable | OtherResource
  datatype Resource = Resource(kind: ResourceKind, owner: Word32)

  datatype SurfaceKind = WindowSurface | PixmapSurface | OtherSurface
  /** A readable X drawable of the server. */
  datatype XSurface = XSurface(kind: SurfaceKind, width: nat, height: nat)
  type Surfaces = map<Word32, XSurface>

  datatype DrawableKind = GlxWindow | GlxPixmap | Pbuffer

  datatype Context = Context(config: Word32, screen: Word32, renderType: Word32, share: Word32)
  datatype Drawable = Drawable(source: Word32, config: Word32, width: nat, height: nat, eventMask: Word32,
                               kind: DrawableKind)
  datatype Binding = Binding(context: Word32, draw: Word32, read: Word32)

  datatype State = State(
    resources: map<Word32, Resource>,
    contexts: map<Word32, Context>,
    drawables: map<Word32, Drawable>,
    bindings: map<Word32, Binding>,
    nextTag: Word32)

  datatype Error =
    | BadValue | BadMatch | BadAlloc | BadIdChoice | BadLength
    | BadContext | BadGlxDrawable | BadGlxPixmap | BadContextTag
    | BadFbConfig | BadPbuffer | BadCurrentDrawable | BadGlxWindow | BadProfile

  datatype Reply = Done | NewTag(tag: Word32) | Failed(error: Error)

  datatype Attribute = Attribute(name: Word32, value: Word32)

  datatype Request =
    | CreateContext(id: Word32, visual: Word32, screen: Word32, share: Word32, direct: Byte)
    | CreateNewContext(id: Word32, config: Word32, screen: Word32, renderType: Word32, share: Word32, direct: Byte)
    | CreateContextAttribs(id: Word32, config: Word32, screen: Word32, share: Word32, direct: Byte,
                           attributes: seq<Attribute>)
    | DestroyContext(id: Word32)
    | MakeCurrent(drawable: Word32, context: Word32, oldTag: Word32)
    | MakeContextCurrent(oldTag: Word32, draw: Word32, read: Word32, context: Word32)
    | CreateGlxPixmap(screen: Word32, visual: Word32, source: Word32, id: Word32)
    | CreatePixmap(screen: Word32, config: Word32, source: Word32, id: Word32, attributes: seq<Attribute>)
    | CreateWindow(screen: Word32, config: Word32, source: Word32, id: Word32, attributes: seq<Attribute>)
    | CreatePbuffer(screen: Word32, config: Word32, id: Word32, attributes: seq<Attribute>)
    | DestroyDrawable(kind: DrawableKind, id: Word32)
    | ChangeAttributes(id: Word32, attributes: seq<Attribute>)

  // ---- The registry

  predicate InBlock(owner: Word32, id: Word32) { id - id % ID_BLOCK == owner }

  function OwnedIds(resources: map<Word32, Resource>, owner: Word32): set<Word32> {
    set id | id in resources && resources[id].owner == owner
  }

  function IdsOfKind(resources: map<Word32, Resource>, owner: Word32, kind: ResourceKind): set<Word32> {
    set id | id in resources && resources[id] == Resource(kind, owner)
  }

  predicate LimitReached(resources: map<Word32, Resource>, owner: Word32) {
    |resources| >= SERVER_LIMIT || |OwnedIds(resources, owner)| >= CLIENT_LIMIT
  }

  /** Why an id cannot be given to a new object. */
  function IdError(resources: map<Word32, Resource>, owner: Word32, id: Word32): Reply {
    if !InBlock(owner, id) || id in resources then Failed(BadIdChoice)
    else if LimitReached(resources, owner) then Failed(BadAlloc)
    else Done
  }

  // ---- Attribute lists

  /** The value given last to `name`, or `default`. */
  function LastValue(attributes: seq<Attribute>, name: Word32, default: Word32): Word32 {
    if attributes == [] then default
    else
      var n := |attributes| - 1;
      if attributes[n].name == name then attributes[n].value else LastValue(attributes[..n], name, default)
  }

  predicate WrongProfile(attributes: seq<Attribute>) {
    exists i :: 0 <= i < |attributes| && attributes[i].name == PROFILE && attributes[i].value != 2
  }

  predicate WrongFlags(attributes: seq<Attribute>) {
    exists i :: 0 <= i < |attributes| && attributes[i].name == FLAGS && attributes[i].value != 0
  }

  predicate WrongVersion(attributes: seq<Attribute>) {
    var major, minor := LastValue(attributes, MAJOR, 1), LastValue(attributes, MINOR, 0);
    WrongFlags(attributes) || major > 2 || (major == 2 && minor > 1)
  }

  // ---- The errors of each request, in the order they are looked for

  predicate ValidConfig(config: Word32) { 1 <= config <= CONFIGS }

  function ContextError(s: State, config: Word32, screen: Word32, renderType: Word32, share: Word32,
                        direct: Byte): Reply {
    if direct != 1 || screen != 0 then Failed(BadValue)
    else if !ValidConfig(config) then Failed(BadFbConfig)
    else if share != 0 && share !in s.contexts then Failed(BadContext)
    else if renderType != RGBA_TYPE then Failed(BadValue)
    else Done
  }

  function LegacyContextError(s: State, visual: Word32, screen: Word32, share: Word32, direct: Byte): Reply {
    if direct != 1 then Failed(BadValue)
    else if screen != 0 || visual != ROOT_VISUAL then Failed(BadMatch)
    else if share != 0 && share !in s.contexts then Failed(BadContext)
    else Done
  }

  function AttribsError(attributes: seq<Attribute>): Reply {
    if |attributes| > ATTRIBUTE_LIMIT then Failed(BadLength)
    else if WrongProfile(attributes) then Failed(BadProfile)
    else if WrongVersion(attributes) then Failed(BadValue)
    else Done
  }

  function SourceError(surfaces: Surfaces, source: Word32, window: bool): Reply {
    if window then
      (if source in surfaces && surfaces[source].kind == WindowSurface then Done else Failed(BadGlxWindow))
    else
      (if source in surfaces && surfaces[source].kind == PixmapSurface then Done else Failed(BadGlxPixmap))
  }

  predicate Drawn(s: State, surfaces: Surfaces, id: Word32) { id in s.drawables || id in surfaces }

  predicate Current(s: State, id: Word32) {
    exists tag :: tag in s.bindings && (s.bindings[tag].draw == id || s.bindings[tag].read == id)
  }

  function BindError(s: State, surfaces: Surfaces, oldTag: Word32, draw: Word32, read: Word32, context: Word32): Reply {
    if oldTag != 0 && oldTag !in s.bindings then Failed(BadContextTag)
    else if context == 0 then (if draw != 0 || read != 0 then Failed(BadMatch) else Done)
    else if context !in s.contexts then Failed(BadContext)
    else if !Drawn(s, surfaces, draw) || !Drawn(s, surfaces, read) then Failed(BadGlxDrawable)
    else Done
  }

  function PbufferError(screen: Word32, config: Word32, attributes: seq<Attribute>): Reply {
    var width, height := LastValue(attributes, GLX_WIDTH, 0), LastValue(attributes, GLX_HEIGHT, 0);
    if |attributes| > ATTRIBUTE_LIMIT then Failed(BadLength)
    else if screen != 0 then Failed(BadValue)
    else if !ValidConfig(config) then Failed(BadFbConfig)
    else if width == 0 || height == 0 || width > PBUFFER_SIDE || height > PBUFFER_SIDE then Failed(BadValue)
    else Done
  }

  function DrawableError(surfaces: Surfaces, screen: Word32, config: Word32, source: Word32, window: bool,
                         attributes: seq<Attribute>): Reply {
    if screen != 0 then Failed(BadValue)
    else if !ValidConfig(config) then Failed(BadFbConfig)
    else if SourceError(surfaces, source, window).Failed? then SourceError(surfaces, source, window)
    else if |attributes| > ATTRIBUTE_LIMIT then Failed(BadLength)
    else Done
  }

  function MissingDrawable(kind: DrawableKind): Error {
    match kind
    case GlxWindow => BadGlxWindow
    case GlxPixmap => BadGlxPixmap
    case Pbuffer => BadPbuffer
  }

  // ---- Transitions

  function AddContext(s: State, owner: Word32, id: Word32, context: Context): (State, Reply) {
    var e := IdError(s.resources, owner, id);
    if e.Failed? then (s, e)
    else (s.(resources := s.resources[id := Resource(GlxContext, owner)], contexts := s.contexts[id := context]), Done)
  }

  function AddDrawable(s: State, owner: Word32, id: Word32, drawable: Drawable): (State, Reply) {
    var e := IdError(s.resources, owner, id);
    if e.Failed? then (s, e)
    else (s.(resources := s.resources[id := Resource(GlxDrawable, owner)], drawables := s.drawables[id := drawable]),
          Done)
  }

  /** Releases an id if it is of the given kind. */
  function Released(resources: map<Word32, Resource>, id: Word32, kind: ResourceKind): map<Word32, Resource> {
    if id in resources && resources[id].kind == kind then resources - {id} else resources
  }

  function RemoveContext(s: State, id: Word32): (State, Reply) {
    if id !in s.contexts then (s, Failed(BadContext))
    else (s.(contexts := s.contexts - {id}, resources := Released(s.resources, id, GlxContext)), Done)
  }

  function RemoveDrawable(s: State, kind: DrawableKind, id: Word32): (State, Reply) {
    if id !in s.drawables || s.drawables[id].kind != kind then (s, Failed(MissingDrawable(kind)))
    else if Current(s, id) then (s, Failed(BadCurrentDrawable))
    else (s.(drawables := s.drawables - {id}, resources := Released(s.resources, id, GlxDrawable)), Done)
  }

  function Unbound(s: State, oldTag: Word32): State {
    if oldTag == 0 then s else s.(bindings := s.bindings - {oldTag})
  }

  function TagAfter(tag: Word32): Word32 { if tag + 1 == WORDS then 1 else tag + 1 }

  /** There is a tag left to give. */
  predicate TagsLeft(s: State) { |s.bindings| + 1 < WORDS }

  ghost function Bind(s: State, surfaces: Surfaces, oldTag: Word32, draw: Word32, read: Word32,
                      context: Word32): (State, Reply)
    requires TagsLeft(s)
  {
    var e := BindError(s, surfaces, oldTag, draw, read, context);
    if e.Failed? then (s, e)
    else if context == 0 then (Unbound(s, oldTag), NewTag(0))
    else
      var tag := FreshId(s.bindings.Keys, s.nextTag);
      (Unbound(s.(bindings := s.bindings[tag := Binding(context, draw, read)], nextTag := TagAfter(tag)), oldTag),
       NewTag(tag))
  }

  ghost function Step(s: State, owner: Word32, surfaces: Surfaces, r: Request): (State, Reply)
    requires TagsLeft(s)
  {
    match r
    case CreateContext(id, visual, screen, share, direct) =>
      var e := LegacyContextError(s, visual, screen, share, direct);
      if e.Failed? then (s, e) else AddContext(s, owner, id, Context(1, screen, RGBA_TYPE, share))
    case CreateNewContext(id, config, screen, renderType, share, direct) =>
      var e := ContextError(s, config, screen, renderType, share, direct);
      if e.Failed? then (s, e) else AddContext(s, owner, id, Context(config, screen, renderType, share))
    case CreateContextAttribs(id, config, screen, share, direct, attributes) =>
      var e := AttribsError(attributes);
      var f := ContextError(s, config, screen, RGBA_TYPE, share, direct);
      if e.Failed? then (s, e) else if f.Failed? then (s, f)
      else AddContext(s, owner, id, Context(config, screen, RGBA_TYPE, share))
    case DestroyContext(id) => RemoveContext(s, id)
    case MakeCurrent(drawable, context, oldTag) => Bind(s, surfaces, oldTag, drawable, drawable, context)
    case MakeContextCurrent(oldTag, draw, read, context) => Bind(s, surfaces, oldTag, draw, read, context)
    case CreateGlxPixmap(screen, visual, source, id) =>
      if screen != 0 then (s, Failed(BadValue))
      else if visual != ROOT_VISUAL then (s, Failed(BadMatch))
      else if SourceError(surfaces, source, false).Failed? then (s, SourceError(surfaces, source, false))
      else AddDrawable(s, owner, id, Drawable(source, 1, surfaces[source].width, surfaces[source].height, 0, GlxPixmap))
    case CreatePixmap(screen, config, source, id, attributes) =>
      var e := DrawableError(surfaces, screen, config, source, false, attributes);
      if e.Failed? then (s, e)
      else AddDrawable(s, owner, id,
                       Drawable(source, config, surfaces[source].width, surfaces[source].height, 0, GlxPixmap))
    case CreateWindow(screen, config, source, id, attributes) =>
      var e := DrawableError(surfaces, screen, config, source, true, attributes);
      if e.Failed? then (s, e)
      else AddDrawable(s, owner, id,
                       Drawable(source, config, surfaces[source].width, surfaces[source].height, 0, GlxWindow))
    case CreatePbuffer(screen, config, id, attributes) =>
      var e := PbufferError(screen, config, attributes);
      if e.Failed? then (s, e)
      else AddDrawable(s, owner, id,
                       Drawable(0, config, LastValue(attributes, GLX_WIDTH, 0), LastValue(attributes, GLX_HEIGHT, 0),
                                0, Pbuffer))
    case DestroyDrawable(kind, id) => RemoveDrawable(s, kind, id)
    case ChangeAttributes(id, attributes) =>
      if id !in s.drawables then (s, Failed(BadGlxDrawable))
      else if |attributes| > ATTRIBUTE_LIMIT then (s, Failed(BadLength))
      else
        var d := s.drawables[id];
        (s.(drawables := s.drawables[id := d.(eventMask := LastValue(attributes, GLX_EVENT_MASK, d.eventMask))]), Done)
  }
}
