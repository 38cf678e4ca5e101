/** What the GLX bookkeeping keeps over whole runs. */
module GlxLaws {
  import opened Wire
  import opened CyclicIds
  import opened Maps
  import opened GlxState

  /** Two sets of ids are exactly a client's registry entries of the GLX kinds. */
  ghost predicate Registered(resources: map<Word32, Resource>, owner: Word32, contexts: set<Word32>,
                             drawables: set<Word32>) {
    && contexts == IdsOfKind(resources, owner, GlxContext)
    && drawables == IdsOfKind(resources, owner, GlxDrawable)
    && (forall id :: id in contexts + drawables ==> InBlock(owner, id))
    && |contexts| + |drawables| <= CLIENT_LIMIT
  }

  /** The tables are the client's registry entries, and no tag is zero. */
  ghost predicate Consistent(s: State, owner: Word32) {
    Registered(s.resources, owner, s.contexts.Keys, s.drawables.Keys) && 0 !in s.bindings && s.nextTag != 0
  }

  /** A request by this client, or work done elsewhere in the server. Work
      elsewhere can change any entry of the registry but this client's GLX ones. */
  datatype Event = Asks(request: Request) | Elsewhere(resources: map<Word32, Resource>)

  predicate IsGlxOf(owner: Word32, r: Resource) { r.owner == owner && r.kind != OtherResource }

  /** The registry after work elsewhere. */
  function Merged(mine: map<Word32, Resource>, theirs: map<Word32, Resource>, owner: Word32): map<Word32, Resource> {
    map id | id in mine.Keys + theirs.Keys &&
      (if id in mine && IsGlxOf(owner, mine[id]) then true else id in theirs && !IsGlxOf(owner, theirs[id]))
      :: if id in mine && IsGlxOf(owner, mine[id]) then mine[id] else theirs[id]
  }

  ghost function After(s: State, owner: Word32, surfaces: Surfaces, e: Event): State
    requires TagsLeft(s)
  {
    match e
    case Asks(r) => Step(s, owner, surfaces, r).0
    case Elsewhere(theirs) => s.(resources := Merged(s.resources, theirs, owner))
  }

  // ---- One step

  lemma SameKeys(a: State, b: State, owner: Word32)
    requires Consistent(a, owner) && b.nextTag != 0 && 0 !in b.bindings
    requires b.contexts == a.contexts && b.drawables.Keys == a.drawables.Keys && b.resources == a.resources
    ensures Consistent(b, owner)
  {
    assert |a.drawables| == |a.drawables.Keys| == |b.drawables|;
  }

  /** Registered under the limit, a client's GLX objects stay within it. */
  lemma Fits(resources: map<Word32, Resource>, owner: Word32, contexts: set<Word32>, drawables: set<Word32>)
    requires Registered(resources, owner, contexts, drawables) && !LimitReached(resources, owner)
    ensures |contexts| + |drawables| < CLIENT_LIMIT
  {
    var both := contexts + drawables;
    assert contexts * drawables == {};
    assert both <= OwnedIds(resources, owner);
    SubsetSize(both, OwnedIds(resources, owner));
    assert |both| == |contexts| + |drawables|;
  }

  /** Registering and releasing an id moves it in and out of its own kind only. */
  lemma KindsMove(resources: map<Word32, Resource>, owner: Word32, id: Word32, kind: ResourceKind, other: ResourceKind)
    requires id !in resources && kind != other
    ensures IdsOfKind(resources[id := Resource(kind, owner)], owner, kind) == IdsOfKind(resources, owner, kind) + {id}
    ensures IdsOfKind(resources[id := Resource(kind, owner)], owner, other) == IdsOfKind(resources, owner, other)
  {
  }

  lemma KindsDrop(resources: map<Word32, Resource>, owner: Word32, id: Word32)
    ensures forall k :: IdsOfKind(resources - {id}, owner, k) == IdsOfKind(resources, owner, k) - {id}
  {
  }

  lemma RegisterKeeps(resources: map<Word32, Resource>, owner: Word32, contexts: set<Word32>, drawables: set<Word32>,
                      id: Word32)
    requires Registered(resources, owner, contexts, drawables) && IdError(resources, owner, id) == Done
    ensures Registered(resources[id := Resource(GlxContext, owner)], owner, contexts + {id}, drawables)
    ensures Registered(resources[id := Resource(GlxDrawable, owner)], owner, contexts, drawables + {id})
  {
    Fits(resources, owner, contexts, drawables);
    KindsMove(resources, owner, id, GlxContext, GlxDrawable);
    KindsMove(resources, owner, id, GlxDrawable, GlxContext);
    assert InBlock(owner, id);
    hide IdError, LimitReached, IdsOfKind, OwnedIds, InBlock;
    assert |contexts + {id}| <= |contexts| + 1 && |drawables + {id}| <= |drawables| + 1;
  }

  lemma AddContextKeeps(s: State, owner: Word32, id: Word32, context: Context)
    requires Consistent(s, owner)
    ensures Consistent(AddContext(s, owner, id, context).0, owner)
  {
    if IdError(s.resources, owner, id) == Done {
      RegisterKeeps(s.resources, owner, s.contexts.Keys, s.drawables.Keys, id);
      assert id !in IdsOfKind(s.resources, owner, GlxContext);
      MapAdd(s.contexts, id, context);
      hide Registered, IdError, IdsOfKind;
    }
  }

  lemma AddDrawableKeeps(s: State, owner: Word32, id: Word32, drawable: Drawable)
    requires Consistent(s, owner)
    ensures Consistent(AddDrawable(s, owner, id, drawable).0, owner)
  {
    if IdError(s.resources, owner, id) == Done {
      RegisterKeeps(s.resources, owner, s.contexts.Keys, s.drawables.Keys, id);
      assert id !in IdsOfKind(s.resources, owner, GlxDrawable);
      MapAdd(s.drawables, id, drawable);
      hide Registered, IdError, IdsOfKind;
    }
  }

  lemma RemoveContextKeeps(s: State, owner: Word32, id: Word32)
    requires Consistent(s, owner)
    ensures Consistent(RemoveContext(s, id).0, owner)
  {
    if id in s.contexts {
      assert id in IdsOfKind(s.resources, owner, GlxContext);
      assert id !in IdsOfKind(s.resources, owner, GlxDrawable);
      assert Released(s.resources, id, GlxContext) == s.resources - {id};
      KindsDrop(s.resources, owner, id);
      hide IdsOfKind, Released;
      MapDrop(s.contexts, id);
    }
  }

  lemma RemoveDrawableKeeps(s: State, owner: Word32, kind: DrawableKind, id: Word32)
    requires Consistent(s, owner)
    ensures Consistent(RemoveDrawable(s, kind, id).0, owner)
  {
    if id in s.drawables {
      assert id in IdsOfKind(s.resources, owner, GlxDrawable);
      assert id !in IdsOfKind(s.resources, owner, GlxContext);
      assert Released(s.resources, id, GlxDrawable) == s.resources - {id};
      KindsDrop(s.resources, owner, id);
      hide IdsOfKind, Released, Current;
      MapDrop(s.drawables, id);
    }
  }

  lemma BindMovesNoTable(s: State, surfaces: Surfaces, oldTag: Word32, draw: Word32, read: Word32, context: Word32)
    requires TagsLeft(s)
    ensures var after := Bind(s, surfaces, oldTag, draw, read, context).0;
            && after.contexts == s.contexts && after.drawables == s.drawables && after.resources == s.resources
            && (s.nextTag != 0 ==> after.nextTag != 0) && (0 !in s.bindings ==> 0 !in after.bindings)
  {
    hide BindError, FreshId, Unbound;
    UnboundMoves(s, oldTag);
    if !BindError(s, surfaces, oldTag, draw, read, context).Failed? && context != 0 {
      var tag := FreshId(s.bindings.Keys, s.nextTag);
      var bound := s.(bindings := s.bindings[tag := Binding(context, draw, read)], nextTag := TagAfter(tag));
      UnboundMoves(bound, oldTag);
    }
  }

  lemma UnboundMoves(s: State, oldTag: Word32)
    ensures var after := Unbound(s, oldTag);
            && after.contexts == s.contexts && after.drawables == s.drawables && after.resources == s.resources
            && after.nextTag == s.nextTag && (forall t :: t in after.bindings ==> t in s.bindings)
  {
  }

  lemma BindKeeps(s: State, owner: Word32, surfaces: Surfaces, oldTag: Word32, draw: Word32, read: Word32,
                  context: Word32)
    requires Consistent(s, owner) && TagsLeft(s)
    ensures Consistent(Bind(s, surfaces, oldTag, draw, read, context).0, owner)
  {
    BindMovesNoTable(s, surfaces, oldTag, draw, read, context);
    hide Registered, Bind;
    SameKeys(s, Bind(s, surfaces, oldTag, draw, read, context).0, owner);
  }

  lemma MergedKinds(mine: map<Word32, Resource>, theirs: map<Word32, Resource>, owner: Word32, kind: ResourceKind)
    requires kind != OtherResource
    ensures IdsOfKind(Merged(mine, theirs, owner), owner, kind) == IdsOfKind(mine, owner, kind)
  {
  }

  lemma MergeKeeps(s: State, owner: Word32, theirs: map<Word32, Resource>)
    requires Consistent(s, owner)
    ensures Consistent(s.(resources := Merged(s.resources, theirs, owner)), owner)
  {
    MergedKinds(s.resources, theirs, owner, GlxContext);
    MergedKinds(s.resources, theirs, owner, GlxDrawable);
    hide IdsOfKind, Merged;
  }

  /** Every request keeps the tables and the registry in step. */
  lemma StepKeeps(s: State, owner: Word32, surfaces: Surfaces, r: Request)
    requires Consistent(s, owner) && TagsLeft(s)
    ensures Consistent(Step(s, owner, surfaces, r).0, owner)
  {
    hide Consistent, AddContext, AddDrawable, RemoveContext, RemoveDrawable, Bind, ContextError, LegacyContextError,
         AttribsError, DrawableError, PbufferError, SourceError;
    match r
    case MakeCurrent(drawable, context, oldTag) => BindKeeps(s, owner, surfaces, oldTag, drawable, drawable, context);
    case MakeContextCurrent(oldTag, draw, read, context) => BindKeeps(s, owner, surfaces, oldTag, draw, read, context);
    case DestroyContext(id) => RemoveContextKeeps(s, owner, id);
    case DestroyDrawable(kind, id) => RemoveDrawableKeeps(s, owner, kind, id);
    case ChangeAttributes(id, attributes) => ChangeKeeps(s, owner, surfaces, r);
    case _ => CreateKeeps(s, owner, surfaces, r);
  }

  lemma CreateKeeps(s: State, owner: Word32, surfaces: Surfaces, r: Request)
    requires Consistent(s, owner) && TagsLeft(s)
    requires !r.MakeCurrent? && !r.MakeContextCurrent? && !r.DestroyContext? && !r.DestroyDrawable? &&
             !r.ChangeAttributes?
    ensures Consistent(Step(s, owner, surfaces, r).0, owner)
  {
    hide Consistent, AddContext, AddDrawable, ContextError, LegacyContextError, AttribsError, PbufferError;
    forall context {:trigger AddContext(s, owner, r.id, context)}
      ensures Consistent(AddContext(s, owner, r.id, context).0, owner) {
      AddContextKeeps(s, owner, r.id, context);
    }
    forall drawable {:trigger AddDrawable(s, owner, r.id, drawable)}
      ensures Consistent(AddDrawable(s, owner, r.id, drawable).0, owner) {
      AddDrawableKeeps(s, owner, r.id, drawable);
    }
  }

  lemma ChangeKeeps(s: State, owner: Word32, surfaces: Surfaces, r: Request)
    requires Consistent(s, owner) && TagsLeft(s) && r.ChangeAttributes?
    ensures Consistent(Step(s, owner, surfaces, r).0, owner)
  {
    var after := Step(s, owner, surfaces, r).0;
    assert after.drawables.Keys == s.drawables.Keys;
    SameKeys(s, after, owner);
  }

  /** A request answered with an error changes nothing. */
  lemma ErrorsChangeNothing(s: State, owner: Word32, surfaces: Surfaces, r: Request)
    requires TagsLeft(s) && Step(s, owner, surfaces, r).1.Failed?
    ensures Step(s, owner, surfaces, r).0 == s
  {
  }

  /** MakeContextCurrent with a context succeeds exactly when everything it names
      exists. */
  lemma MakeCurrentAcceptedIff(s: State, surfaces: Surfaces, oldTag: Word32, draw: Word32, read: Word32,
                               context: Word32)
    requires TagsLeft(s) && context != 0
    ensures Bind(s, surfaces, oldTag, draw, read, context).1.NewTag? <==>
            && (oldTag == 0 || oldTag in s.bindings) && context in s.contexts
            && Drawn(s, surfaces, draw) && Drawn(s, surfaces, read)
  {
  }

  /** On success it gives an unused nonzero tag and puts it in the place of the
      old one: no other binding moves, nor does any table. */
  lemma MakeCurrentReplaces(s: State, surfaces: Surfaces, oldTag: Word32, draw: Word32, read: Word32, context: Word32)
    requires TagsLeft(s) && 0 !in s.bindings && context != 0 &&
             !BindError(s, surfaces, oldTag, draw, read, context).Failed?
    ensures var (after, reply) := Bind(s, surfaces, oldTag, draw, read, context);
            && reply.NewTag? && reply.tag != 0 && reply.tag !in s.bindings && oldTag !in after.bindings
            && after.bindings.Keys == s.bindings.Keys - {oldTag} + {reply.tag}
            && after.bindings[reply.tag] == Binding(context, draw, read)
            && (forall t :: t in s.bindings && t != oldTag ==> after.bindings[t] == s.bindings[t])
            && |after.bindings| == |s.bindings| + (if oldTag == 0 then 1 else 0)
            && after.contexts == s.contexts && after.drawables == s.drawables && after.resources == s.resources
  {
    var (after, reply) := Bind(s, surfaces, oldTag, draw, read, context);
    assert oldTag == 0 <==> oldTag !in s.bindings;
    hide Drawn, BindError, FreshId;
    KeysAfter(s.bindings, oldTag, reply.tag, Binding(context, draw, read));
    assert after.bindings == s.bindings[reply.tag := Binding(context, draw, read)] - {oldTag};
  }

  lemma KeysAfter(bindings: map<Word32, Binding>, oldTag: Word32, tag: Word32, binding: Binding)
    requires tag !in bindings && oldTag != tag
    ensures var after := bindings[tag := binding] - {oldTag};
            && after.Keys == bindings.Keys - {oldTag} + {tag}
            && |after| == |bindings| + (if oldTag in bindings then 0 else 1)
            && (oldTag !in bindings ==> after == bindings[tag := binding])
            && after[tag] == binding && forall t :: t in bindings && t != oldTag ==> after[t] == bindings[t]
  {
    MapAdd(bindings, tag, binding);
    MapDrop(bindings[tag := binding], oldTag);
  }

  /** Destroying what was just created gives the state back, registry and all. */
  lemma CreateThenDestroy(s: State, owner: Word32, id: Word32, context: Context, drawable: Drawable)
    requires Consistent(s, owner) && IdError(s.resources, owner, id) == Done
    ensures RemoveContext(AddContext(s, owner, id, context).0, id) == (s, Done)
    ensures !Current(s, id) ==> RemoveDrawable(AddDrawable(s, owner, id, drawable).0, drawable.kind, id) == (s, Done)
  {
    assert id !in IdsOfKind(s.resources, owner, GlxContext) && id !in IdsOfKind(s.resources, owner, GlxDrawable);
    hide IdsOfKind, LimitReached;
    MapAdd(s.contexts, id, context);
    MapAdd(s.drawables, id, drawable);
    MapAdd(s.resources, id, Resource(GlxContext, owner));
    MapAdd(s.resources, id, Resource(GlxDrawable, owner));
  }

  // ---- Runs

  ghost predicate Named(s: State, tag: Word32, id: Word32) {
    tag in s.bindings && (s.bindings[tag].draw == id || s.bindings[tag].read == id)
  }

  /** In one step a GLX drawable that a binding names stays, a binding that
      stays is not altered, and at most one binding more exists. */
  lemma BoundDrawableStays(s: State, owner: Word32, surfaces: Surfaces, e: Event, tag: Word32, id: Word32)
    requires Consistent(s, owner) && TagsLeft(s) && Named(s, tag, id) && id in s.drawables
    ensures var after := After(s, owner, surfaces, e);
            id in after.drawables && (tag in after.bindings ==> after.bindings[tag] == s.bindings[tag])
  {
    hide Consistent, ContextError, LegacyContextError, AttribsError, DrawableError, PbufferError, SourceError, IdError,
         Merged, Bind;
    assert Current(s, id);
    if e.Asks? {
      match e.request
      case MakeCurrent(drawable, context, oldTag) =>
        BindMovesNoTable(s, surfaces, oldTag, drawable, drawable, context);
        BindLeavesTheRest(s, surfaces, oldTag, drawable, drawable, context);
      case MakeContextCurrent(oldTag, draw, read, context) =>
        BindMovesNoTable(s, surfaces, oldTag, draw, read, context);
        BindLeavesTheRest(s, surfaces, oldTag, draw, read, context);
      case DestroyDrawable(_, _) => hide Current, Released;
      case _ =>
    }
  }

  lemma BindLeavesTheRest(s: State, surfaces: Surfaces, oldTag: Word32, draw: Word32, read: Word32, context: Word32)
    requires TagsLeft(s)
    ensures var after := Bind(s, surfaces, oldTag, draw, read, context).0;
            forall t :: t in s.bindings && t in after.bindings ==> after.bindings[t] == s.bindings[t]
  {
    hide BindError, FreshId;
  }

  lemma OneBindingMore(s: State, owner: Word32, surfaces: Surfaces, e: Event)
    requires TagsLeft(s) && 0 !in s.bindings
    ensures |After(s, owner, surfaces, e).bindings| <= |s.bindings| + 1
  {
    hide ContextError, LegacyContextError, AttribsError, DrawableError, PbufferError, SourceError, Merged, IdError,
         Bind;
    if e.Asks? {
      match e.request
      case MakeCurrent(drawable, context, oldTag) => BindAddsOne(s, surfaces, oldTag, drawable, drawable, context);
      case MakeContextCurrent(oldTag, draw, read, context) => BindAddsOne(s, surfaces, oldTag, draw, read, context);
      case _ =>
    }
  }

  lemma BindAddsOne(s: State, surfaces: Surfaces, oldTag: Word32, draw: Word32, read: Word32, context: Word32)
    requires TagsLeft(s) && 0 !in s.bindings
    ensures |Bind(s, surfaces, oldTag, draw, read, context).0.bindings| <= |s.bindings| + 1
  {
    var after := Bind(s, surfaces, oldTag, draw, read, context).0;
    hide FreshId;
    if context == 0 {
      SubsetSize(after.bindings.Keys, s.bindings.Keys);
    } else if !BindError(s, surfaces, oldTag, draw, read, context).Failed? {
      MakeCurrentReplaces(s, surfaces, oldTag, draw, read, context);
    }
  }

  function Empty(resources: map<Word32, Resource>): State { State(resources, map[], map[], map[], 1) }

  /** The states of a connection's life, one more than its events. Fewer than
      2^32 - 1 events leave a tag for every request. */
  ghost predicate Run(states: seq<State>, owner: Word32, surfaces: seq<Surfaces>, events: seq<Event>) {
    && |states| == |events| + 1 && |surfaces| == |events| + 1 < WORDS
    && states[0] == Empty(states[0].resources) && IdsOfKind(states[0].resources, owner, GlxContext) +
      IdsOfKind(states[0].resources, owner, GlxDrawable) == {}
    && forall k :: 0 <= k < |events| ==> TagsLeft(states[k]) ==>
        states[k + 1] == After(states[k], owner, surfaces[k], events[k])
  }

  /** In every reachable state the tables agree with the registry, and there is
      always an unused tag, so the search for one ends. */
  lemma {:induction false} ReachableIsConsistent(states: seq<State>, owner: Word32, surfaces: seq<Surfaces>,
                                                 events: seq<Event>, k: nat)
    requires Run(states, owner, surfaces, events) && k <= |events|
    ensures Consistent(states[k], owner) && |states[k].bindings| <= k
    ensures k < |events| ==> TagsLeft(states[k])
  {
    hide Merged, Step;
    if k > 0 {
      hide Registered, IdsOfKind;
      ReachableIsConsistent(states, owner, surfaces, events, k - 1);
      var s, e := states[k - 1], events[k - 1];
      OneBindingMore(s, owner, surfaces[k - 1], e);
      match e
      case Asks(r) => StepKeeps(s, owner, surfaces[k - 1], r);
      case Elsewhere(theirs) => MergeKeeps(s, owner, theirs);
    }
  }

  /** As long as a binding lives, every GLX drawable it names is still there. */
  lemma {:induction false} LiveBindingsKeepTheirDrawables(states: seq<State>, owner: Word32, surfaces: seq<Surfaces>,
                                                          events: seq<Event>,
                                                          first: nat, last: nat, tag: Word32, id: Word32)
    requires Run(states, owner, surfaces, events) && first <= last <= |events|
    requires Named(states[first], tag, id) && id in states[first].drawables
    requires forall k :: first <= k <= last ==> tag in states[k].bindings
    ensures Named(states[last], tag, id) && id in states[last].drawables
    decreases last
  {
    hide After, Consistent, Empty, FreshId;
    if first < last {
      LiveBindingsKeepTheirDrawables(states, owner, surfaces, events, first, last - 1, tag, id);
      ReachableIsConsistent(states, owner, surfaces, events, last - 1);
      BoundDrawableStays(states[last - 1], owner, surfaces[last - 1], events[last - 1], tag, id);
    }
  }

  // ---- The contexts that bindings name

  /** A request that enters a context under an id. */
  ghost predicate Creates(s: State, owner: Word32, surfaces: Surfaces, e: Event, id: Word32)
    requires TagsLeft(s)
  {
    && e.Asks? && (e.request.CreateContext? || e.request.CreateNewContext? || e.request.CreateContextAttribs?)
    && e.request.id == id && Step(s, owner, surfaces, e.request).1 == Done
  }

  /** A context is in the table after an event exactly when it was there and the
      event did not ask for its end, or the event created it. */
  lemma ContextAfterIff(s: State, owner: Word32, surfaces: Surfaces, e: Event, id: Word32)
    requires TagsLeft(s)
    ensures id in After(s, owner, surfaces, e).contexts <==>
            (id in s.contexts && e != Asks(DestroyContext(id))) || Creates(s, owner, surfaces, e, id)
  {
    hide Step, Merged;
    if e.Asks? {
      if e.request.DestroyContext? {
        DestroyedContext(s, owner, surfaces, e.request.id, id);
      } else if ConcernsContext(e.request) {
        CreatedContext(s, owner, surfaces, e.request, id);
      } else {
        ContextsUntouched(s, owner, surfaces, e.request);
      }
    }
  }

  predicate ConcernsContext(r: Request) {
    r.CreateContext? || r.CreateNewContext? || r.CreateContextAttribs? || r.DestroyContext?
  }

  lemma DestroyedContext(s: State, owner: Word32, surfaces: Surfaces, given: Word32, id: Word32)
    requires TagsLeft(s)
    ensures id in Step(s, owner, surfaces, DestroyContext(given)).0.contexts <==> id in s.contexts && id != given
  {
    hide Released;
  }

  lemma CreatedContext(s: State, owner: Word32, surfaces: Surfaces, r: Request, id: Word32)
    requires TagsLeft(s) && ConcernsContext(r) && !r.DestroyContext?
    ensures var (after, reply) := Step(s, owner, surfaces, r);
            id in after.contexts <==> id in s.contexts || (r.id == id && reply == Done)
  {
    hide ContextError, LegacyContextError, AttribsError, AddContext;
    forall context {:trigger AddContext(s, owner, r.id, context)}
      ensures var (after, reply) := AddContext(s, owner, r.id, context);
              id in after.contexts <==> id in s.contexts || (r.id == id && reply == Done)
    {
      AddedContext(s, owner, r.id, context, id);
    }
  }

  lemma AddedContext(s: State, owner: Word32, given: Word32, context: Context, id: Word32)
    ensures var (after, reply) := AddContext(s, owner, given, context);
            id in after.contexts <==> id in s.contexts || (given == id && reply == Done)
  {
    hide IdError;
  }

  lemma ContextsUntouched(s: State, owner: Word32, surfaces: Surfaces, r: Request)
    requires TagsLeft(s) && !ConcernsContext(r)
    ensures Step(s, owner, surfaces, r).0.contexts == s.contexts
  {
    if r.MakeCurrent? {
      BindMovesNoTable(s, surfaces, r.oldTag, r.drawable, r.drawable, r.context);
      hide Bind;
    } else if r.MakeContextCurrent? {
      BindMovesNoTable(s, surfaces, r.oldTag, r.draw, r.read, r.context);
      hide Bind;
    } else {
      DrawablesLeaveContexts(s, owner, surfaces, r);
    }
  }

  lemma DrawablesLeaveContexts(s: State, owner: Word32, surfaces: Surfaces, r: Request)
    requires TagsLeft(s) && !ConcernsContext(r) && !r.MakeCurrent? && !r.MakeContextCurrent?
    ensures Step(s, owner, surfaces, r).0.contexts == s.contexts
  {
    hide DrawableError, PbufferError, SourceError, IdError, Released, Current;
  }

  /** The context of a binding is in the table when it is bound, and stays there
      until a DestroyContext names it, which a binding does not prevent. */
  lemma BoundContextExists(s: State, surfaces: Surfaces, oldTag: Word32, draw: Word32, read: Word32, context: Word32)
    requires TagsLeft(s) && 0 !in s.bindings && context != 0
    requires Bind(s, surfaces, oldTag, draw, read, context).1.NewTag?
    ensures var (after, reply) := Bind(s, surfaces, oldTag, draw, read, context);
            reply.tag in after.bindings && after.bindings[reply.tag].context == context && context in after.contexts
  {
    MakeCurrentReplaces(s, surfaces, oldTag, draw, read, context);
  }

  lemma {:induction false} ContextsStand(states: seq<State>, owner: Word32, surfaces: seq<Surfaces>, events: seq<Event>,
                                         first: nat, last: nat, id: Word32)
    requires Run(states, owner, surfaces, events) && first <= last <= |events|
    requires id in states[first].contexts
    requires forall k :: first <= k < last ==> events[k] != Asks(DestroyContext(id))
    ensures id in states[last].contexts
    decreases last
  {
    hide After, Consistent, Empty, FreshId;
    if first < last {
      ContextsStand(states, owner, surfaces, events, first, last - 1, id);
      ReachableIsConsistent(states, owner, surfaces, events, last - 1);
      ContextAfterIff(states[last - 1], owner, surfaces[last - 1], events[last - 1], id);
    }
  }

  /** A context destroyed and not created again is gone, bound or not. */
  lemma {:induction false} ContextsGo(states: seq<State>, owner: Word32, surfaces: seq<Surfaces>, events: seq<Event>,
                                      first: nat, last: nat, id: Word32)
    requires Run(states, owner, surfaces, events) && first < last <= |events|
    requires events[first] == Asks(DestroyContext(id))
    requires forall k :: first < k < last ==> TagsLeft(states[k]) ==>
               !Creates(states[k], owner, surfaces[k], events[k], id)
    ensures id !in states[last].contexts
    decreases last
  {
    hide After, Consistent, Empty, FreshId;
    ReachableIsConsistent(states, owner, surfaces, events, last - 1);
    ContextAfterIff(states[last - 1], owner, surfaces[last - 1], events[last - 1], id);
    if first + 1 < last {
      ContextsGo(states, owner, surfaces, events, first, last - 1, id);
    }
  }
}
