/** The handler of glx_protocol.cpp, which edits the connection's tables and the
    shared registry in place. */
module GlxClient {
  import opened Wire
  import opened CyclicIds
  import opened GlxState

  /** The ids of all clients. */
  class Registry {
    var entries: map<Word32, Resource>

    constructor ()
      ensures entries == map[]
    {
      entries := map[];
    }

    /** Takes an id unless it is taken or a limit is met. */
    method Reserve(id: Word32, kind: ResourceKind, owner: Word32) returns (ok: bool)
      requires id != 0
      modifies this
      ensures ok == (id !in old(entries) && !LimitReached(old(entries), owner))
      ensures entries == if ok then old(entries)[id := Resource(kind, owner)] else old(entries)
    {
      ok := !LimitReached(entries, owner) && id !in entries;
      if ok {
        entries := entries[id := Resource(kind, owner)];
      }
    }

    method Release(id: Word32, kind: ResourceKind)
      modifies this
      ensures entries == Released(old(entries), id, kind)
    {
      if id in entries && entries[id].kind == kind {
        entries := entries - {id};
      }
    }
  }

  /** The last value an attribute list gives to a name. */
  method ScanFor(attributes: seq<Attribute>, name: Word32, default: Word32) returns (value: Word32)
    ensures value == LastValue(attributes, name, default)
  {
    value := default;
    for n := 0 to |attributes|
      invariant value == LastValue(attributes[..n], name, default)
    {
      assert attributes[..n + 1][..n] == attributes[..n];
      if attributes[n].name == name {
        value := attributes[n].value;
      }
    }
    assert attributes[..|attributes|] == attributes;
  }

  /** What CreateContextAttribsARB makes of its attributes. */
  method CheckAttribs(attributes: seq<Attribute>) returns (r: Reply)
    ensures r == AttribsError(attributes)
  {
    if |attributes| > ATTRIBUTE_LIMIT {
      return Failed(BadLength);
    }
    var profileError, flagError := false, false;
    var major: Word32, minor: Word32 := 1, 0;
    for n := 0 to |attributes|
      invariant profileError == WrongProfile(attributes[..n])
      invariant flagError == WrongFlags(attributes[..n])
      invariant major == LastValue(attributes[..n], MAJOR, 1) && minor == LastValue(attributes[..n], MINOR, 0)
    {
      var a := attributes[n];
      ghost var upTo, before := attributes[..n + 1], attributes[..n];
      assert upTo[..n] == before && upTo[n] == a;
      if a.name == MAJOR {
        major := a.value;
      } else if a.name == MINOR {
        minor := a.value;
      } else if a.name == PROFILE && a.value != 2 {
        profileError := true;
      } else if a.name == FLAGS && a.value != 0 {
        flagError := true;
      }
      assert WrongProfile(before) ==> WrongProfile(upTo) by {
        if i :| 0 <= i < n && before[i].name == PROFILE && before[i].value != 2 {
          assert upTo[i] == before[i];
        }
      }
      assert WrongFlags(before) ==> WrongFlags(upTo) by {
        if i :| 0 <= i < n && before[i].name == FLAGS && before[i].value != 0 {
          assert upTo[i] == before[i];
        }
      }
      assert forall i :: 0 <= i < n ==> upTo[i] == before[i];
    }
    assert attributes[..|attributes|] == attributes;
    if profileError {
      return Failed(BadProfile);
    }
    if flagError || major > 2 || (major == 2 && minor > 1) {
      return Failed(BadValue);
    }
    return Done;
  }

  class Client {
    const owner: Word32
    const registry: Registry
    var contexts: map<Word32, Context>
    var drawables: map<Word32, Drawable>
    var bindings: map<Word32, Binding>
    var nextTag: Word32

    ghost function Now(): State
      reads this, registry
    {
      State(registry.entries, contexts, drawables, bindings, nextTag)
    }

    constructor (owner: Word32, registry: Registry)
      requires owner != 0
      ensures this.owner == owner && this.registry == registry
      ensures Now() == State(registry.entries, map[], map[], map[], 1)
    {
      this.owner := owner;
      this.registry := registry;
      contexts, drawables, bindings, nextTag := map[], map[], map[], 1;
    }

    /** Whether some binding draws to or reads from a drawable. */
    method DrawableIsCurrent(id: Word32) returns (current: bool)
      ensures current == Current(Now(), id)
    {
      var left := bindings.Keys;
      while left != {}
        invariant left <= bindings.Keys
        invariant forall tag :: tag in bindings.Keys - left ==> bindings[tag].draw != id && bindings[tag].read != id
        decreases |left|
      {
        var tag :| tag in left;
        if bindings[tag].draw == id || bindings[tag].read == id {
          return true;
        }
        left := left - {tag};
      }
      return false;
    }

    /** The next unused tag, counting on past 2^32 - 1 and around. */
    method NextContextTag() returns (tag: Word32)
      requires |bindings| + 1 < WORDS && nextTag != 0
      modifies this`nextTag
      ensures tag == FreshId(bindings.Keys, old(nextTag)) && nextTag == TagAfter(tag)
    {
      ghost var used, start := bindings.Keys, nextTag;
      ghost var k: nat := 0;
      NoneTried(used, start);
      NextStep(start, 0);
      tag := nextTag;
      nextTag := TagAfter(tag);
      while tag == 0 || tag in bindings
        invariant AllBlocked(used, start, k) && At(start, k) == tag && nextTag == TagAfter(tag) && tag != 0
        invariant k <= |used| + 2
        decreases |used| + 2 - k
      {
        BlockedStep(used, start, k);
        NextStep(start, k);
        k := k + 1;
        if tag == WORDS - 1 {
          BlockedStep(used, start, k);
          NextStep(start, k);
          k := k + 1;
        }
        SearchIsShort(used, start, k);
        tag := nextTag;
        nextTag := TagAfter(tag);
      }
      SearchEnds(used, start, k);
    }

    /** MakeCurrent and MakeContextCurrent: the new binding is entered before the
        old one is erased. */
    method MakeCurrent(surfaces: Surfaces, oldTag: Word32, draw: Word32, read: Word32, context: Word32)
      returns (reply: Reply)
      requires TagsLeft(Now()) && nextTag != 0
      modifies this`nextTag, this`bindings
      ensures (Now(), reply) == Bind(old(Now()), surfaces, oldTag, draw, read, context)
    {
      if oldTag != 0 && oldTag !in bindings {
        return Failed(BadContextTag);
      }
      if context == 0 {
        if draw != 0 || read != 0 {
          return Failed(BadMatch);
        }
        if oldTag != 0 {
          bindings := bindings - {oldTag};
        }
        return NewTag(0);
      }
      if context !in contexts {
        return Failed(BadContext);
      }
      if draw !in drawables && draw !in surfaces {
        return Failed(BadGlxDrawable);
      }
      if read !in drawables && read !in surfaces {
        return Failed(BadGlxDrawable);
      }
      var tag := NextContextTag();
      bindings := bindings[tag := Binding(context, draw, read)];
      if oldTag != 0 {
        bindings := bindings - {oldTag};
      }
      return NewTag(tag);
    }

    /** The tail that the three context requests share. */
    method EnterContext(id: Word32, context: Context) returns (reply: Reply)
      requires owner != 0
      modifies this`contexts, registry
      ensures (Now(), reply) == AddContext(old(Now()), owner, id, context)
    {
      if !InBlock(owner, id) || id in registry.entries {
        return Failed(BadIdChoice);
      }
      var ok := registry.Reserve(id, GlxContext, owner);
      if !ok {
        return Failed(if id in registry.entries then BadIdChoice else BadAlloc);
      }
      contexts := contexts[id := context];
      return Done;
    }

    method EnterDrawable(id: Word32, drawable: Drawable) returns (reply: Reply)
      requires owner != 0
      modifies this`drawables, registry
      ensures (Now(), reply) == AddDrawable(old(Now()), owner, id, drawable)
    {
      if !InBlock(owner, id) || id in registry.entries {
        return Failed(BadIdChoice);
      }
      var ok := registry.Reserve(id, GlxDrawable, owner);
      if !ok {
        return Failed(if id in registry.entries then BadIdChoice else BadAlloc);
      }
      drawables := drawables[id := drawable];
      return Done;
    }

    method DestroyContext(id: Word32) returns (reply: Reply)
      modifies this`contexts, registry
      ensures (Now(), reply) == RemoveContext(old(Now()), id)
    {
      if id !in contexts {
        return Failed(BadContext);
      }
      contexts := contexts - {id};
      registry.Release(id, GlxContext);
      return Done;
    }

    method DestroyDrawable(kind: DrawableKind, id: Word32) returns (reply: Reply)
      modifies this`drawables, registry
      ensures (Now(), reply) == RemoveDrawable(old(Now()), kind, id)
    {
      if id !in drawables || drawables[id].kind != kind {
        return Failed(MissingDrawable(kind));
      }
      var current := DrawableIsCurrent(id);
      if current {
        return Failed(BadCurrentDrawable);
      }
      drawables := drawables - {id};
      registry.Release(id, GlxDrawable);
      return Done;
    }

    method CreateContextAttribs(id: Word32, config: Word32, screen: Word32, share: Word32, direct: Byte,
                                attributes: seq<Attribute>)
      returns (reply: Reply)
      requires owner != 0 && TagsLeft(Now())
      modifies this`contexts, registry
      ensures (Now(), reply) ==
              Step(old(Now()), owner, map[],
                   Request.CreateContextAttribs(id, config, screen, share, direct, attributes))
    {
      reply := CheckAttribs(attributes);
      if reply.Failed? {
        return;
      }
      reply := ContextProblem(config, screen, RGBA_TYPE, share, direct);
      if !reply.Failed? {
        reply := EnterContext(id, Context(config, screen, RGBA_TYPE, share));
      }
    }

    method ContextProblem(config: Word32, screen: Word32, renderType: Word32, share: Word32, direct: Byte)
      returns (reply: Reply)
      ensures reply == ContextError(Now(), config, screen, renderType, share, direct)
    {
      if direct != 1 {
        return Failed(BadValue);
      }
      if screen != 0 {
        return Failed(BadValue);
      }
      if !ValidConfig(config) {
        return Failed(BadFbConfig);
      }
      if share != 0 && share !in contexts {
        return Failed(BadContext);
      }
      return if renderType != RGBA_TYPE then Failed(BadValue) else Done;
    }

    method CreateContext(r: Request) returns (reply: Reply)
      requires (r.CreateContext? || r.CreateNewContext?) && owner != 0 && TagsLeft(Now())
      modifies this`contexts, registry
      ensures (Now(), reply) == Step(old(Now()), owner, map[], r)
    {
      match r
      case CreateContext(id, visual, screen, share, direct) =>
        if direct != 1 {
          return Failed(BadValue);
        }
        if screen != 0 || visual != ROOT_VISUAL {
          return Failed(BadMatch);
        }
        if share != 0 && share !in contexts {
          return Failed(BadContext);
        }
        reply := EnterContext(id, Context(1, screen, RGBA_TYPE, share));
      case CreateNewContext(id, config, screen, renderType, share, direct) =>
        reply := ContextProblem(config, screen, renderType, share, direct);
        if !reply.Failed? {
          reply := EnterContext(id, Context(config, screen, renderType, share));
        }
    }

    /** CreateGLXPixmap, CreatePixmap, CreateWindow and CreatePbuffer. */
    method CreateDrawable(surfaces: Surfaces, r: Request) returns (reply: Reply)
      requires (r.CreateGlxPixmap? || r.CreatePixmap? || r.CreateWindow? || r.CreatePbuffer?) && owner != 0 &&
               TagsLeft(Now())
      modifies this`drawables, registry
      ensures (Now(), reply) == Step(old(Now()), owner, surfaces, r)
    {
      if r.screen != 0 && !r.CreatePbuffer? {
        return Failed(BadValue);
      }
      if r.CreatePbuffer? {
        if |r.attributes| > ATTRIBUTE_LIMIT {
          return Failed(BadLength);
        }
        var width := ScanFor(r.attributes, GLX_WIDTH, 0);
        var height := ScanFor(r.attributes, GLX_HEIGHT, 0);
        if r.screen != 0 {
          return Failed(BadValue);
        }
        if !ValidConfig(r.config) {
          return Failed(BadFbConfig);
        }
        if width == 0 || height == 0 || width > PBUFFER_SIDE || height > PBUFFER_SIDE {
          return Failed(BadValue);
        }
        reply := EnterDrawable(r.id, Drawable(0, r.config, width, height, 0, Pbuffer));
        return;
      }
      var config: Word32 := 1;
      if r.CreateGlxPixmap? {
        if r.visual != ROOT_VISUAL {
          return Failed(BadMatch);
        }
      } else {
        if !ValidConfig(r.config) {
          return Failed(BadFbConfig);
        }
        config := r.config;
      }
      reply := SourceError(surfaces, r.source, r.CreateWindow?);
      if reply.Failed? {
        return;
      }
      if !r.CreateGlxPixmap? && |r.attributes| > ATTRIBUTE_LIMIT {
        return Failed(BadLength);
      }
      var surface := surfaces[r.source];
      reply := EnterDrawable(r.id,
                             Drawable(r.source, config, surface.width, surface.height, 0,
                                      if r.CreateWindow? then GlxWindow else GlxPixmap));
    }

    method ChangeAttributes(id: Word32, attributes: seq<Attribute>) returns (reply: Reply)
      requires TagsLeft(Now())
      modifies this`drawables
      ensures (Now(), reply) == Step(old(Now()), owner, map[], Request.ChangeAttributes(id, attributes))
    {
      if id !in drawables {
        return Failed(BadGlxDrawable);
      }
      if |attributes| > ATTRIBUTE_LIMIT {
        return Failed(BadLength);
      }
      var mask := ScanFor(attributes, GLX_EVENT_MASK, drawables[id].eventMask);
      drawables := drawables[id := drawables[id].(eventMask := mask)];
      return Done;
    }

    /** One request: the tables and the registry move as Step says. */
    method Handle(surfaces: Surfaces, r: Request) returns (reply: Reply)
      requires owner != 0 && nextTag != 0 && TagsLeft(Now())
      modifies this, registry
      ensures (Now(), reply) == Step(old(Now()), owner, surfaces, r)
    {
      hide AddContext, AddDrawable, RemoveContext, RemoveDrawable, Bind, IdError;
      match r
      case CreateContext(_, _, _, _, _) => reply := CreateContext(r);
      case CreateNewContext(_, _, _, _, _, _) => reply := CreateContext(r);
      case CreateContextAttribs(id, config, screen, share, direct, attributes) =>
        reply := CreateContextAttribs(id, config, screen, share, direct, attributes);
      case DestroyContext(id) => reply := DestroyContext(id);
      case MakeCurrent(drawable, context, oldTag) =>
        reply := MakeCurrent(surfaces, oldTag, drawable, drawable, context);
      case MakeContextCurrent(oldTag, draw, read, context) =>
        reply := MakeCurrent(surfaces, oldTag, draw, read, context);
      case CreateGlxPixmap(_, _, _, _) => reply := CreateDrawable(surfaces, r);
      case CreatePixmap(_, _, _, _, _) => reply := CreateDrawable(surfaces, r);
      case CreateWindow(_, _, _, _, _) => reply := CreateDrawable(surfaces, r);
      case CreatePbuffer(_, _, _, _) => reply := CreateDrawable(surfaces, r);
      case DestroyDrawable(kind, id) => reply := DestroyDrawable(kind, id);
      case ChangeAttributes(id, attributes) => reply := ChangeAttributes(id, attributes);
    }
  }
}
