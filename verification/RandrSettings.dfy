/** RANDR requests that replace one setting: gamma ramps, transform, panning, event selection. */
module RandrSettings {
  import opened Wire
  import opened RandrState

  // ---- SetCrtcGamma

  ghost function SetGammaStep(s: Screen, world: World, crtc: Word32, size: Word16,
                              components: seq<Word16>): (Screen, Response) {
    var n := |s.randr.gammaRed|;
    if crtc != CRTC_ID then (s, Failed(BadCrtc))
    else if size != n || |components| != n * 3 then (s, Failed(BadMatch))
    else
      CommitOnly(s, s.randr.(gammaRed := components[..n], gammaGreen := components[n..2 * n],
                                   gammaBlue := components[2 * n..]),
                 Silent, world)
  }

  /** The three ramps keep one common length. */
  predicate RampsOk(r: Randr) { |r.gammaRed| == |r.gammaGreen| == |r.gammaBlue| }

  method ReadChannel(channel: seq<Word16>, components: seq<Word16>, from: nat) returns (read: seq<Word16>)
    requires from + |channel| <= |components|
    ensures read == components[from..from + |channel|]
  {
    read := channel;
    for k := 0 to |channel|
      invariant |read| == |channel|
      invariant forall i :: 0 <= i < k ==> read[i] == components[from + i]
    {
      read := read[k := components[from + k]];
    }
  }

  method SetCrtcGamma(server: ServerState, world: World, crtc: Word32, size: Word16, components: seq<Word16>)
    returns (response: Response)
    requires RampsOk(server.randr)
    modifies server
    ensures (server.Contents(), response) == SetGammaStep(old(server.Contents()), world, crtc, size, components)
  {
    hide Committed;
    if crtc != CRTC_ID {
      return Failed(BadCrtc);
    }
    if size != |server.randr.gammaRed| || |components| != size * 3 {
      return Failed(BadMatch);
    }
    var candidate := server.randr;
    var red := ReadChannel(candidate.gammaRed, components, 0);
    var green := ReadChannel(candidate.gammaGreen, components, |red|);
    var blue := ReadChannel(candidate.gammaBlue, components, 2 * |red|);
    candidate := candidate.(gammaRed := red);
    candidate := candidate.(gammaGreen := green);
    candidate := candidate.(gammaBlue := blue);
    assert components[2 * |red|..] == components[2 * |red|..3 * |red|];
    var changed := server.CommitRandrState(candidate, Silent, world);
    return UpdateResponse(changed);
  }

  // ---- SetCrtcTransform and SetPanning

  ghost function SetTransformStep(s: Screen, world: World, crtc: Word32, transform: Transform): (Screen, Response) {
    if crtc != CRTC_ID then (s, Failed(BadCrtc))
    else if |transform.parameters| > MAXIMUM_FILTER_PARAMETERS then (s, Failed(BadAlloc))
    else CommitOnly(s, s.randr.(transform := transform), Configuration, world)
  }

  method SetCrtcTransform(server: ServerState, world: World, crtc: Word32, transform: Transform)
    returns (response: Response)
    modifies server
    ensures (server.Contents(), response) == SetTransformStep(old(server.Contents()), world, crtc, transform)
  {
    if crtc != CRTC_ID {
      return Failed(BadCrtc);
    }
    if |transform.parameters| > MAXIMUM_FILTER_PARAMETERS {
      return Failed(BadAlloc);
    }
    var candidate := server.randr;
    candidate := candidate.(transform := transform);
    var changed := server.CommitRandrState(candidate, Configuration, world);
    return UpdateResponse(changed);
  }

  ghost function SetPanningStep(s: Screen, world: World, crtc: Word32, values: seq<int>): (Screen, Response) {
    if crtc != CRTC_ID then (s, Failed(BadCrtc))
    else CommitThenReply(s, s.randr.(panning := values), Configuration, world, Panned)
  }

  method SetPanning(server: ServerState, world: World, crtc: Word32, values: seq<int>) returns (response: Response)
    modifies server
    ensures (server.Contents(), response) == SetPanningStep(old(server.Contents()), world, crtc, values)
  {
    if crtc != CRTC_ID {
      return Failed(BadCrtc);
    }
    var candidate := server.randr;
    candidate := candidate.(panning := values);
    var changed := server.CommitRandrState(candidate, Configuration, world);
    if changed != Updated {
      return UpdateResponse(changed);
    }
    return Replied(Panned);
  }

  // ---- SelectInput

  /** The first entry of a client for a window, or the length of the list. */
  function FindSubscription(list: seq<Subscription>, client: Word32, window: Word32): (k: nat)
    ensures k <= |list|
    ensures k < |list| ==> list[k].client == client && list[k].window == window
    ensures forall i :: 0 <= i < k ==> !(list[i].client == client && list[i].window == window)
  {
    if list == [] || (list[0].client == client && list[0].window == window) then 0
    else 1 + FindSubscription(list[1..], client, window)
  }

  function Subscribed(list: seq<Subscription>, client: Word32, window: Word32, mask: Word16): seq<Subscription> {
    var k := FindSubscription(list, client, window);
    if k == |list| then (if mask == 0 then list else list + [Subscription(client, window, mask)])
    else if mask == 0 then list[..k] + list[k + 1..]
    else list[k := list[k].(mask := mask)]
  }

  ghost function SelectInputStep(s: Screen, world: World, client: Word32, window: Word32,
                                 mask: Word16): (Screen, Response) {
    if window !in world.windows then (s, Failed(BadWindow))
    else if mask >= 0x100 then (s, Failed(BadValue))
    else if mask % 2 == 1 && !world.room then (s, Failed(BadAlloc))
    else (s.(randr := s.randr.(subscriptions := Subscribed(s.randr.subscriptions, client, window, mask))), Done)
  }

  method SelectInput(server: ServerState, world: World, client: Word32, window: Word32, mask: Word16)
    returns (response: Response)
    modifies server
    ensures (server.Contents(), response) == SelectInputStep(old(server.Contents()), world, client, window, mask)
  {
    if window !in world.windows {
      return Failed(BadWindow);
    }
    if mask >= 0x100 {
      return Failed(BadValue);
    }
    var candidate := server.randr;
    var list := candidate.subscriptions;
    var existing := FindSubscription(list, client, window);
    if mask == 0 {
      if existing != |list| {
        list := list[..existing] + list[existing + 1..];
      }
    } else if existing == |list| {
      list := list + [Subscription(client, window, mask)];
    } else {
      list := list[existing := list[existing].(mask := mask)];
    }
    candidate := candidate.(subscriptions := list);
    if mask % 2 == 1 && !world.room {
      return UpdateResponse(QueueFull);
    }
    server.randr := candidate;
    return UpdateResponse(Updated);
  }
}
