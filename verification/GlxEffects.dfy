/** What each GLX request does when it succeeds, and when it does, in the terms of the protocol. */
module GlxEffects {
  import opened Wire
  import opened CyclicIds
  import opened GlxState

  /** An id may be given to a new object: it is the client's and nobody's yet, and both
      limits leave room. */
  ghost predicate Free(s: State, owner: Word32, id: Word32) {
    && owner <= id < owner + 0x20_0000 && id !in s.resources && |s.resources| < 65536
    && |set other | other in s.resources && s.resources[other].owner == owner| < 4096
  }

  lemma FreeIff(s: State, owner: Word32, id: Word32)
    requires owner % 0x20_0000 == 0
    ensures IdError(s.resources, owner, id) == Done <==> Free(s, owner, id)
    ensures IdError(s.resources, owner, id) == Failed(BadIdChoice) <==>
            id in s.resources || !(owner <= id < owner + 0x20_0000)
    ensures IdError(s.resources, owner, id) in {Done, Failed(BadIdChoice), Failed(BadAlloc)}
  {
    BlockIff(owner, id);
    assert OwnedIds(s.resources, owner) == set other | other in s.resources && s.resources[other].owner == owner;
    hide InBlock;
  }

  lemma BlockIff(owner: Word32, id: Word32)
    requires owner % 0x20_0000 == 0
    ensures InBlock(owner, id) <==> owner <= id < owner + 0x20_0000
  {
  }

  /** A list gives a name this value last, or not at all and it is the default. */
  predicate Given(attributes: seq<Attribute>, name: Word32, default: Word32, value: Word32) {
    || (value == default && forall i :: 0 <= i < |attributes| ==> attributes[i].name != name)
    || exists i :: 0 <= i < |attributes| && attributes[i] == Attribute(name, value) &&
                   forall k :: i < k < |attributes| ==> attributes[k].name != name
  }

  lemma {:induction false} LastValueIsGiven(attributes: seq<Attribute>, name: Word32, default: Word32, value: Word32)
    ensures Given(attributes, name, default, value) <==> value == LastValue(attributes, name, default)
  {
    if attributes != [] {
      var n := |attributes| - 1;
      if attributes[n].name != name {
        LastValueIsGiven(attributes[..n], name, default, value);
        assert forall i :: 0 <= i < n ==> attributes[..n][i] == attributes[i];
      } else if value == attributes[n].value {
        assert attributes[n] == Attribute(name, value);
      }
    }
  }

  // ---- Contexts

  ghost function WithContext(s: State, owner: Word32, id: Word32, context: Context): State {
    State(s.resources[id := Resource(GlxContext, owner)], s.contexts[id := context], s.drawables, s.bindings, s.nextTag)
  }

  lemma CreateContextEffect(s: State, owner: Word32, surfaces: Surfaces, id: Word32, visual: Word32, screen: Word32,
                            share: Word32, direct: Byte)
    requires TagsLeft(s) && owner % 0x20_0000 == 0
    ensures var (after, reply) := Step(s, owner, surfaces, CreateContext(id, visual, screen, share, direct));
            && (reply == Done <==>
                  && direct == 1 && screen == 0 && visual == 3 && (share == 0 || share in s.contexts)
                  && Free(s, owner, id))
            && (reply == Done ==> after == WithContext(s, owner, id, Context(1, 0, 0x8014, share)))
            && (reply == Failed(BadValue) <==> direct != 1)
            && (reply == Failed(BadMatch) <==> direct == 1 && (screen != 0 || visual != 3))
            && (reply == Failed(BadContext) <==>
                  direct == 1 && screen == 0 && visual == 3 && share != 0 && share !in s.contexts)
  {
    FreeIff(s, owner, id);
    hide Free, IdError;
  }

  lemma CreateNewContextEffect(s: State, owner: Word32, surfaces: Surfaces, id: Word32, config: Word32,
                               screen: Word32, renderType: Word32, share: Word32, direct: Byte)
    requires TagsLeft(s) && owner % 0x20_0000 == 0
    ensures var (after, reply) :=
              Step(s, owner, surfaces, CreateNewContext(id, config, screen, renderType, share, direct));
            && (reply == Done <==>
                  && direct == 1 && screen == 0 && 1 <= config <= 8 && renderType == 0x8014
                  && (share == 0 || share in s.contexts) && Free(s, owner, id))
            && (reply == Done ==> after == WithContext(s, owner, id, Context(config, 0, 0x8014, share)))
            && (reply == Failed(BadFbConfig) <==> direct == 1 && screen == 0 && !(1 <= config <= 8))
            && (reply == Failed(BadContext) <==>
                  direct == 1 && screen == 0 && 1 <= config <= 8 && share != 0 && share !in s.contexts)
            && (reply == Failed(BadValue) <==>
                  || direct != 1 || screen != 0
                  || (1 <= config <= 8 && (share == 0 || share in s.contexts) && renderType != 0x8014))
  {
    FreeIff(s, owner, id);
    hide Free, IdError;
  }

  /** With attributes: the last version given (1.0 if none) is at most 2.1 or has a major
      number below 2, every profile is compatibility and every flag word zero. */
  lemma CreateContextAttribsEffect(s: State, owner: Word32, surfaces: Surfaces, id: Word32, config: Word32,
                                   screen: Word32, share: Word32, direct: Byte, attributes: seq<Attribute>,
                                   major: Word32, minor: Word32)
    requires TagsLeft(s) && owner % 0x20_0000 == 0
    requires Given(attributes, 0x2091, 1, major) && Given(attributes, 0x2092, 0, minor)
    ensures var (after, reply) :=
              Step(s, owner, surfaces, CreateContextAttribs(id, config, screen, share, direct, attributes));
            var profile := forall a :: a in attributes && a.name == 0x9126 ==> a.value == 2;
            var flags := forall a :: a in attributes && a.name == 0x2094 ==> a.value == 0;
            && (reply == Done <==>
                  && |attributes| <= 256 && profile && flags && (major < 2 || (major == 2 && minor <= 1))
                  && direct == 1 && screen == 0 && 1 <= config <= 8
                  && (share == 0 || share in s.contexts) && Free(s, owner, id))
            && (reply == Done ==> after == WithContext(s, owner, id, Context(config, 0, 0x8014, share)))
            && (reply == Failed(BadLength) <==> |attributes| > 256)
            && (reply == Failed(BadProfile) <==> |attributes| <= 256 && !profile)
  {
    FreeIff(s, owner, id);
    LastValueIsGiven(attributes, MAJOR, 1, major);
    LastValueIsGiven(attributes, MINOR, 0, minor);
    hide Free, IdError, Given, LastValue;
  }

  lemma DestroyContextEffect(s: State, owner: Word32, surfaces: Surfaces, id: Word32)
    requires TagsLeft(s)
    ensures var (after, reply) := Step(s, owner, surfaces, DestroyContext(id));
            && (reply == Done <==> id in s.contexts) && (reply == Failed(BadContext) <==> id !in s.contexts)
            && (reply == Done ==>
                  after == State(if id in s.resources && s.resources[id].kind == GlxContext then s.resources - {id}
                                 else s.resources, s.contexts - {id}, s.drawables, s.bindings, s.nextTag))
  {
  }

  // ---- Bindings

  /** Both binding requests; the older one names one drawable twice. A context of zero
      only takes the old binding away. */
  lemma MakeCurrentErrors(s: State, owner: Word32, surfaces: Surfaces, oldTag: Word32, draw: Word32, read: Word32,
                          context: Word32)
    requires TagsLeft(s)
    ensures var (after, reply) := Step(s, owner, surfaces, MakeContextCurrent(oldTag, draw, read, context));
            var tagged := oldTag == 0 || oldTag in s.bindings;
            var drawn := (draw in s.drawables || draw in surfaces) && (read in s.drawables || read in surfaces);
            && (draw == read ==> Step(s, owner, surfaces, MakeCurrent(draw, context, oldTag)) == (after, reply))
            && (reply == Failed(BadContextTag) <==> !tagged)
            && (reply == Failed(BadMatch) <==> tagged && context == 0 && (draw != 0 || read != 0))
            && (reply == Failed(BadContext) <==> tagged && context != 0 && context !in s.contexts)
            && (reply == Failed(BadGlxDrawable) <==> tagged && context != 0 && context in s.contexts && !drawn)
            && (context == 0 ==>
                  && (reply == NewTag(0) <==> tagged && draw == 0 && read == 0)
                  && (reply == NewTag(0) ==>
                        after == State(s.resources, s.contexts, s.drawables,
                                       if oldTag == 0 then s.bindings else s.bindings - {oldTag}, s.nextTag)))
  {
    hide FreshId;
  }

  // ---- Drawables

  ghost function WithDrawable(s: State, owner: Word32, id: Word32, drawable: Drawable): State {
    State(s.resources[id := Resource(GlxDrawable, owner)], s.contexts, s.drawables[id := drawable], s.bindings,
          s.nextTag)
  }

  /** A drawable over a pixmap or window has its size. */
  lemma CreateGlxPixmapEffect(s: State, owner: Word32, surfaces: Surfaces, screen: Word32, visual: Word32,
                              source: Word32, id: Word32)
    requires TagsLeft(s) && owner % 0x20_0000 == 0
    ensures var (after, reply) := Step(s, owner, surfaces, CreateGlxPixmap(screen, visual, source, id));
            var pixmap := source in surfaces && surfaces[source].kind == PixmapSurface;
            && (reply == Done <==> screen == 0 && visual == 3 && pixmap && Free(s, owner, id))
            && (reply == Done ==>
                  after == WithDrawable(s, owner, id, Drawable(source, 1, surfaces[source].width,
                                                               surfaces[source].height, 0, GlxPixmap)))
            && (reply == Failed(BadValue) <==> screen != 0)
            && (reply == Failed(BadMatch) <==> screen == 0 && visual != 3)
            && (reply == Failed(BadGlxPixmap) <==> screen == 0 && visual == 3 && !pixmap)
  {
    FreeIff(s, owner, id);
    hide Free, IdError;
  }

  lemma CreatePixmapEffect(s: State, owner: Word32, surfaces: Surfaces, screen: Word32, config: Word32,
                           source: Word32, id: Word32, attributes: seq<Attribute>)
    requires TagsLeft(s) && owner % 0x20_0000 == 0
    ensures var (after, reply) := Step(s, owner, surfaces, CreatePixmap(screen, config, source, id, attributes));
            var pixmap := source in surfaces && surfaces[source].kind == PixmapSurface;
            && (reply == Done <==>
                  screen == 0 && 1 <= config <= 8 && pixmap && |attributes| <= 256 && Free(s, owner, id))
            && (reply == Done ==>
                  after == WithDrawable(s, owner, id, Drawable(source, config, surfaces[source].width,
                                                               surfaces[source].height, 0, GlxPixmap)))
            && (reply == Failed(BadGlxPixmap) <==> screen == 0 && 1 <= config <= 8 && !pixmap)
            && (reply == Failed(BadValue) <==> screen != 0)
            && (reply == Failed(BadFbConfig) <==> screen == 0 && !(1 <= config <= 8))
  {
    FreeIff(s, owner, id);
    hide Free, IdError;
  }

  lemma CreateWindowEffect(s: State, owner: Word32, surfaces: Surfaces, screen: Word32, config: Word32,
                           source: Word32, id: Word32, attributes: seq<Attribute>)
    requires TagsLeft(s) && owner % 0x20_0000 == 0
    ensures var (after, reply) := Step(s, owner, surfaces, CreateWindow(screen, config, source, id, attributes));
            var window := source in surfaces && surfaces[source].kind == WindowSurface;
            && (reply == Done <==>
                  screen == 0 && 1 <= config <= 8 && window && |attributes| <= 256 && Free(s, owner, id))
            && (reply == Done ==>
                  after == WithDrawable(s, owner, id, Drawable(source, config, surfaces[source].width,
                                                               surfaces[source].height, 0, GlxWindow)))
            && (reply == Failed(BadGlxWindow) <==> screen == 0 && 1 <= config <= 8 && !window)
            && (reply == Failed(BadLength) <==> screen == 0 && 1 <= config <= 8 && window && |attributes| > 256)
  {
    FreeIff(s, owner, id);
    hide Free, IdError;
  }

  /** A pbuffer has the size its attributes give last, from 1 to 4096 each way. */
  lemma CreatePbufferEffect(s: State, owner: Word32, surfaces: Surfaces, screen: Word32, config: Word32, id: Word32,
                            attributes: seq<Attribute>, width: Word32, height: Word32)
    requires TagsLeft(s) && owner % 0x20_0000 == 0
    requires Given(attributes, 0x801d, 0, width) && Given(attributes, 0x801e, 0, height)
    ensures var (after, reply) := Step(s, owner, surfaces, CreatePbuffer(screen, config, id, attributes));
            && (reply == Done <==>
                  && |attributes| <= 256 && screen == 0 && 1 <= config <= 8
                  && 1 <= width <= 4096 && 1 <= height <= 4096 && Free(s, owner, id))
            && (reply == Done ==> after == WithDrawable(s, owner, id, Drawable(0, config, width, height, 0, Pbuffer)))
            && (reply == Failed(BadLength) <==> |attributes| > 256)
  {
    FreeIff(s, owner, id);
    LastValueIsGiven(attributes, GLX_WIDTH, 0, width);
    LastValueIsGiven(attributes, GLX_HEIGHT, 0, height);
    hide Free, IdError, Given, LastValue;
  }

  /** A drawable of the kind named is destroyed unless a binding draws to it or reads from it. */
  lemma DestroyDrawableEffect(s: State, owner: Word32, surfaces: Surfaces, kind: DrawableKind, id: Word32)
    requires TagsLeft(s)
    ensures var (after, reply) := Step(s, owner, surfaces, DestroyDrawable(kind, id));
            var found := id in s.drawables && s.drawables[id].kind == kind;
            var bound := exists tag :: tag in s.bindings && (s.bindings[tag].draw == id || s.bindings[tag].read == id);
            && (reply == Done <==> found && !bound)
            && (reply == Failed(BadCurrentDrawable) <==> found && bound)
            && (!found ==> reply == Failed(match kind
                                           case GlxWindow => BadGlxWindow
                                           case GlxPixmap => BadGlxPixmap
                                           case Pbuffer => BadPbuffer))
            && (reply == Done ==>
                  after == State(if id in s.resources && s.resources[id].kind == GlxDrawable then s.resources - {id}
                                 else s.resources, s.contexts, s.drawables - {id}, s.bindings, s.nextTag))
  {
  }

  /** Only the event mask can change, to the value given last. */
  lemma ChangeAttributesEffect(s: State, owner: Word32, surfaces: Surfaces, id: Word32, attributes: seq<Attribute>,
                               mask: Word32)
    requires TagsLeft(s)
    requires id in s.drawables ==> Given(attributes, 0x801f, s.drawables[id].eventMask, mask)
    ensures var (after, reply) := Step(s, owner, surfaces, ChangeAttributes(id, attributes));
            && (reply == Done <==> id in s.drawables && |attributes| <= 256)
            && (reply == Failed(BadGlxDrawable) <==> id !in s.drawables)
            && (reply == Done ==>
                  var d := s.drawables[id];
                  after == State(s.resources, s.contexts,
                                 s.drawables[id := Drawable(d.source, d.config, d.width, d.height, mask, d.kind)],
                                 s.bindings, s.nextTag))
  {
    if id in s.drawables {
      LastValueIsGiven(attributes, GLX_EVENT_MASK, s.drawables[id].eventMask, mask);
      hide Given, LastValue;
    }
  }
}
