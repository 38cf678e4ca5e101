/** RANDR requests that change modes, the output's mode list, the CRTC and the screen size. */
module RandrModes {
  import opened Wire
  import opened RandrState
  import opened CyclicIds

  function SignedWord(w: Word16): int { if w <= 0x7fff then w else w - 0x1_0000 }

  function Unsigned(value: int): Word32 { value % 0x1_0000_0000 }

  predicate NameTaken(modes: map<Word32, ModeInfo>, name: string) {
    exists id :: id in modes && modes[id].name == name
  }

  predicate KnownRotation(rotation: Word16) {
    (rotation % 16 == 1 || rotation % 16 == 2 || rotation % 16 == 4 || rotation % 16 == 8) && rotation < 64
  }

  // ---- CreateMode

  ghost function WithNewMode(r: Randr, width: Word16, height: Word16, timing: ModeTiming, name: string): Randr
    requires |r.modes| < MAXIMUM_MODES
  {
    var id := FreshId(r.modes.Keys, r.nextModeId);
    r.(modes := r.modes[id := ModeInfo(id, width, height, timing, name, false)], nextModeId := (id + 1) % WORDS)
  }

  ghost function CreateModeStep(s: Screen, world: World, window: Word32, width: Word16, height: Word16,
                                timing: ModeTiming, name: string): (Screen, Response) {
    if window !in world.windows then (s, Failed(BadWindow))
    else if width == 0 || height == 0 || |name| == 0 || |name| > 255 then (s, Failed(BadValue))
    else if |s.randr.modes| >= MAXIMUM_MODES then (s, Failed(BadAlloc))
    else if NameTaken(s.randr.modes, name) then (s, Failed(BadName))
    else
      CommitThenReply(s, WithNewMode(s.randr, width, height, timing, name), Configuration, world,
                      NewMode(FreshId(s.randr.modes.Keys, s.randr.nextModeId)))
  }

  /** The search of CreateMode: advance the counter past zero and every id in use. */
  method SkipUsedIds(r: Randr) returns (candidate: Randr)
    requires |r.modes| < MAXIMUM_MODES
    ensures candidate == r.(nextModeId := FreshId(r.modes.Keys, r.nextModeId))
  {
    hide AllBlocked, FreshId;
    candidate := r;
    ghost var used, start, k := r.modes.Keys, r.nextModeId, 0;
    assert |used| == |r.modes|;
    NextStep(start, 0);
    NoneTried(used, start);
    while candidate.nextModeId == 0 || candidate.nextModeId in candidate.modes
      invariant candidate == r.(nextModeId := At(start, k))
      invariant AllBlocked(used, start, k)
      decreases |used| + 1 - k
    {
      BlockedStep(used, start, k);
      NextStep(start, k);
      candidate := candidate.(nextModeId := (candidate.nextModeId + 1) % WORDS);
      k := k + 1;
    }
    SearchEnds(used, start, k);
  }

  method CreateMode(server: ServerState, world: World, window: Word32, width: Word16, height: Word16,
                    timing: ModeTiming, name: string) returns (response: Response)
    modifies server
    ensures (server.Contents(), response) ==
            CreateModeStep(old(server.Contents()), world, window, width, height, timing, name)
  {
    if window !in world.windows {
      return Failed(BadWindow);
    }
    if width == 0 || height == 0 || |name| == 0 || |name| > 255 {
      return Failed(BadValue);
    }
    var candidate := server.randr;
    if |candidate.modes| >= MAXIMUM_MODES {
      return Failed(BadAlloc);
    }
    if NameTaken(candidate.modes, name) {
      return Failed(BadName);
    }
    candidate := SkipUsedIds(candidate);
    var id := candidate.nextModeId;
    candidate := candidate.(nextModeId := (id + 1) % WORDS);
    candidate := candidate.(modes := candidate.modes[id := ModeInfo(id, width, height, timing, name, false)]);
    var changed := server.CommitRandrState(candidate, Configuration, world);
    if changed != Updated {
      return UpdateResponse(changed);
    }
    return Replied(NewMode(id));
  }

  // ---- DestroyMode

  ghost function DestroyModeStep(s: Screen, world: World, id: Word32): (Screen, Response) {
    if id !in s.randr.modes then (s, Failed(BadMode))
    else if s.randr.modes[id].builtIn then (s, Failed(BadMatch))
    else if s.randr.currentMode == id || id in s.randr.outputModes then (s, Failed(BadAccess))
    else CommitOnly(s, s.randr.(modes := s.randr.modes - {id}), Configuration, world)
  }

  method DestroyMode(server: ServerState, world: World, id: Word32) returns (response: Response)
    modifies server
    ensures (server.Contents(), response) == DestroyModeStep(old(server.Contents()), world, id)
  {
    var candidate := server.randr;
    if id !in candidate.modes {
      return Failed(BadMode);
    }
    if candidate.modes[id].builtIn {
      return Failed(BadMatch);
    }
    if candidate.currentMode == id || id in candidate.outputModes {
      return Failed(BadAccess);
    }
    candidate := candidate.(modes := candidate.modes - {id});
    var changed := server.CommitRandrState(candidate, Configuration, world);
    return UpdateResponse(changed);
  }

  // ---- AddOutputMode and DeleteOutputMode

  /** The list without the first occurrence of an id. */
  function RemoveFirst(ids: seq<Word32>, id: Word32): seq<Word32> {
    if ids == [] then [] else if ids[0] == id then ids[1..] else [ids[0]] + RemoveFirst(ids[1..], id)
  }

  ghost function AddOutputModeStep(s: Screen, world: World, output: Word32, id: Word32): (Screen, Response) {
    if output != OUTPUT_ID then (s, Failed(BadOutput))
    else if id !in s.randr.modes then (s, Failed(BadMode))
    else
      CommitOnly(s, if id in s.randr.outputModes then s.randr
                    else s.randr.(outputModes := s.randr.outputModes + [id]), Configuration, world)
  }

  ghost function DeleteOutputModeStep(s: Screen, world: World, output: Word32, id: Word32): (Screen, Response) {
    if output != OUTPUT_ID then (s, Failed(BadOutput))
    else if id !in s.randr.modes then (s, Failed(BadMode))
    else if s.randr.currentMode == id then (s, Failed(BadMatch))
    else if s.randr.modes[id].builtIn || id !in s.randr.outputModes then (s, Failed(BadAccess))
    else CommitOnly(s, s.randr.(outputModes := RemoveFirst(s.randr.outputModes, id)), Configuration, world)
  }

  method FindId(ids: seq<Word32>, id: Word32) returns (found: nat)
    ensures found <= |ids| && id !in ids[..found]
    ensures found < |ids| ==> ids[found] == id
  {
    found := 0;
    while found < |ids| && ids[found] != id
      invariant found <= |ids| && id !in ids[..found]
    {
      found := found + 1;
    }
  }

  lemma {:induction false} EraseFound(ids: seq<Word32>, id: Word32, found: nat)
    requires found < |ids| && id !in ids[..found] && ids[found] == id
    ensures ids[..found] + ids[found + 1..] == RemoveFirst(ids, id)
  {
    if found > 0 {
      assert ids[1..][..found - 1] == ids[..found][1..];
      assert id != ids[0] by { assert ids[0] == ids[..found][0]; }
      EraseFound(ids[1..], id, found - 1);
      assert ids[..found] + ids[found + 1..] == [ids[0]] + (ids[1..][..found - 1] + ids[1..][found..]);
    }
  }

  method ChangeOutputMode(server: ServerState, world: World, adds: bool, output: Word32, id: Word32)
    returns (response: Response)
    modifies server
    ensures (server.Contents(), response) ==
            if adds then AddOutputModeStep(old(server.Contents()), world, output, id)
            else DeleteOutputModeStep(old(server.Contents()), world, output, id)
  {
    if output != OUTPUT_ID {
      return Failed(BadOutput);
    }
    var candidate := server.randr;
    if id !in candidate.modes {
      return Failed(BadMode);
    }
    var found := FindId(candidate.outputModes, id);
    if adds {
      if found == |candidate.outputModes| {
        candidate := candidate.(outputModes := candidate.outputModes + [id]);
      }
    } else {
      if candidate.currentMode == id {
        return Failed(BadMatch);
      }
      if candidate.modes[id].builtIn || found == |candidate.outputModes| {
        return Failed(BadAccess);
      }
      EraseFound(candidate.outputModes, id, found);
      candidate := candidate.(outputModes := candidate.outputModes[..found] + candidate.outputModes[found + 1..]);
    }
    var changed := server.CommitRandrState(candidate, Configuration, world);
    return UpdateResponse(changed);
  }

  // ---- SetCrtcConfig

  /** The checks on a mode that is to be shown, in the order of the handler. */
  function ShowModeError(s: Screen, x: Word16, y: Word16, id: Word32, outputs: seq<Word32>): Response {
    if id !in s.randr.modes then Failed(BadMode)
    else if |outputs| != 1 then Failed(BadMatch)
    else if outputs[0] != OUTPUT_ID then Failed(BadOutput)
    else if id !in s.randr.outputModes then Failed(BadMatch)
    else if SignedWord(x) < 0 || SignedWord(x) + s.randr.modes[id].width > s.width then Failed(BadValue)
    else if SignedWord(y) < 0 || SignedWord(y) + s.randr.modes[id].height > s.height then Failed(BadValue)
    else Done
  }

  function CrtcError(s: Screen, x: Word16, y: Word16, id: Word32, rotation: Word16, outputs: seq<Word32>): Response {
    if !KnownRotation(rotation) then Failed(BadValue)
    else if rotation != 1 then Failed(BadMatch)
    else if id == 0 then (if outputs == [] then Done else Failed(BadMatch))
    else ShowModeError(s, x, y, id, outputs)
  }

  ghost function SetCrtcConfigStep(s: Screen, world: World, crtc: Word32, configTimestamp: Word32, x: Word16, y: Word16,
                                   id: Word32, rotation: Word16, outputs: seq<Word32>): (Screen, Response) {
    if crtc != CRTC_ID then (s, Failed(BadCrtc))
    else if configTimestamp != 0 && configTimestamp != s.randr.configTimestamp then (s, Replied(Status(1)))
    else if CrtcError(s, x, y, id, rotation, outputs) != Done then (s, CrtcError(s, x, y, id, rotation, outputs))
    else
      CommitThenReply(s, s.randr.(currentMode := id, crtcX := if id == 0 then 0 else SignedWord(x),
                                  crtcY := if id == 0 then 0 else SignedWord(y), rotation := rotation),
                      Configuration, world, Status(0))
  }

  method SetCrtcConfig(server: ServerState, world: World, crtc: Word32, configTimestamp: Word32, x: Word16, y: Word16,
                       id: Word32, rotation: Word16, outputs: seq<Word32>) returns (response: Response)
    modifies server
    ensures (server.Contents(), response) ==
            SetCrtcConfigStep(old(server.Contents()), world, crtc, configTimestamp, x, y, id, rotation, outputs)
  {
    if crtc != CRTC_ID {
      return Failed(BadCrtc);
    }
    var state := server.randr;
    if configTimestamp != 0 && configTimestamp != state.configTimestamp {
      return Replied(Status(1));
    }
    var low := rotation % 16;
    if low != 1 && low != 2 && low != 4 && low != 8 {
      return Failed(BadValue);
    }
    if rotation >= 64 {
      return Failed(BadValue);
    }
    if rotation != 1 {
      return Failed(BadMatch);
    }
    if id == 0 {
      if |outputs| != 0 {
        return Failed(BadMatch);
      }
    } else {
      var sx, sy := SignedWord(x), SignedWord(y);
      if id !in state.modes {
        return Failed(BadMode);
      }
      if |outputs| != 1 {
        return Failed(BadMatch);
      }
      if outputs[0] != OUTPUT_ID {
        return Failed(BadOutput);
      }
      if id !in state.outputModes {
        return Failed(BadMatch);
      }
      if sx < 0 || sx + state.modes[id].width > server.width {
        return Failed(BadValue);
      }
      if sy < 0 || sy + state.modes[id].height > server.height {
        return Failed(BadValue);
      }
    }
    var candidate := state;
    candidate := candidate.(currentMode := id);
    candidate := candidate.(crtcX := if id == 0 then 0 else SignedWord(x));
    candidate := candidate.(crtcY := if id == 0 then 0 else SignedWord(y));
    candidate := candidate.(rotation := rotation);
    var changed := server.CommitRandrState(candidate, Configuration, world);
    if changed != Updated {
      return UpdateResponse(changed);
    }
    return Replied(Status(0));
  }

  // ---- SetScreenSize

  /** The current mode would stick out of a screen of the given size. */
  predicate CrtcExceeds(r: Randr, width: Word16, height: Word16) {
    Enabled(r) &&
    (Unsigned(Unsigned(r.crtcX) + r.modes[r.currentMode].width) > width ||
     Unsigned(Unsigned(r.crtcY) + r.modes[r.currentMode].height) > height)
  }

  ghost function SetScreenSizeStep(s: Screen, world: World, window: Word32, width: Word16, height: Word16,
                                   millimetreWidth: Word32, millimetreHeight: Word32): (Screen, Response) {
    if window !in world.windows then (s, Failed(BadWindow))
    else if width == 0 || width > MAXIMUM_SCREEN || height == 0 || height > MAXIMUM_SCREEN then (s, Failed(BadValue))
    else if millimetreWidth == 0 || millimetreHeight == 0 then (s, Failed(BadValue))
    else if CrtcExceeds(s.randr, width, height) then (s, Failed(BadMatch))
    else
      var (s', result) := Resized(s, s.randr.(millimetreWidth := millimetreWidth, millimetreHeight := millimetreHeight),
                                  width, height, world);
      (s', UpdateResponse(result))
  }

  method SetScreenSize(server: ServerState, world: World, window: Word32, width: Word16, height: Word16,
                       millimetreWidth: Word32, millimetreHeight: Word32) returns (response: Response)
    modifies server
    ensures (server.Contents(), response) ==
            SetScreenSizeStep(old(server.Contents()), world, window, width, height, millimetreWidth, millimetreHeight)
  {
    if window !in world.windows {
      return Failed(BadWindow);
    }
    if width == 0 || width > MAXIMUM_SCREEN {
      return Failed(BadValue);
    }
    if height == 0 || height > MAXIMUM_SCREEN {
      return Failed(BadValue);
    }
    if millimetreWidth == 0 || millimetreHeight == 0 {
      return Failed(BadValue);
    }
    var current := server.randr;
    if CrtcExceeds(current, width, height) {
      return Failed(BadMatch);
    }
    var candidate := current;
    candidate := candidate.(millimetreWidth := millimetreWidth);
    candidate := candidate.(millimetreHeight := millimetreHeight);
    var changed := server.ResizeRandrScreen(candidate, width, height, world);
    return UpdateResponse(changed);
  }

  // ---- SetScreenConfig

  /** A nonzero request time that lies before the last change, on a clock that wraps. */
  predicate Outdated(timestamp: Word32, last: Word32) {
    timestamp != 0 && Unsigned(timestamp - last) >= 0x8000_0000
  }

  ghost function SetScreenConfigStep(s: Screen, world: World, window: Word32, timestamp: Word32,
                                     configTimestamp: Word32,
                                     size: Word16, rotation: Word16, rate: Word16): (Screen, Response) {
    if window !in world.windows then (s, Failed(BadWindow))
    else if configTimestamp != s.randr.configTimestamp then (s, Replied(Status(1)))
    else if Outdated(timestamp, s.randr.timestamp) then (s, Replied(Status(2)))
    else if size != 0 || !KnownRotation(rotation) then (s, Failed(BadValue))
    else if rotation != 1 then (s, Failed(BadMatch))
    else if rate != 0 && rate != 60 then (s, Failed(BadValue))
    else CommitThenReply(s, s.randr.(rotation := rotation), Configuration, world, Status(0))
  }

  method SetScreenConfig(server: ServerState, world: World, window: Word32, timestamp: Word32, configTimestamp: Word32,
                         size: Word16, rotation: Word16, rate: Word16) returns (response: Response)
    modifies server
    ensures (server.Contents(), response) ==
            SetScreenConfigStep(old(server.Contents()), world, window, timestamp, configTimestamp, size, rotation, rate)
  {
    if window !in world.windows {
      return Failed(BadWindow);
    }
    if configTimestamp != server.randr.configTimestamp {
      return Replied(Status(1));
    }
    if Outdated(timestamp, server.randr.timestamp) {
      return Replied(Status(2));
    }
    if size != 0 || !KnownRotation(rotation) {
      return Failed(BadValue);
    }
    if rotation != 1 {
      return Failed(BadMatch);
    }
    if rate != 0 && rate != 60 {
      return Failed(BadValue);
    }
    var candidate := server.randr;
    candidate := candidate.(rotation := rotation);
    var changed := server.CommitRandrState(candidate, Configuration, world);
    if changed != Updated {
      return UpdateResponse(changed);
    }
    return Replied(Status(0));
  }
}
