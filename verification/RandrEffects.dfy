/** What each RANDR request that succeeds leaves behind, and when it does, in the
    terms of the protocol. */
module RandrEffects {
  import opened Arith
  import opened Wire
  import opened PropertyData
  import opened RandrState
  import opened RandrModes
  import opened RandrProperties
  import opened RandrMonitors
  import opened RandrSettings
  import opened CyclicIds

  // ---- Commits

  /** User monitors stay as they are; the automatic ones keep their name and flags
      and show the CRTC's rectangle, or nothing while it is off. */
  ghost predicate MonitorsFollow(before: Monitors, r: Randr, screenWidth: Word16, screenHeight: Word16) {
    && r.monitors.Keys == before.Keys
    && forall name :: name in before ==>
         && (!before[name].automatic ==> r.monitors[name] == before[name])
         && (before[name].automatic ==> ShowsCrtc(before[name], r.monitors[name], r, screenWidth, screenHeight))
  }

  predicate ShowsCrtc(earlier: Monitor, m: Monitor, r: Randr, screenWidth: Word16, screenHeight: Word16) {
    && m.automatic && m.name == earlier.name && m.primary == earlier.primary
    && (r.currentMode !in r.modes ==>
          && m.outputs == [] && (m.x, m.y, m.width, m.height) == (0, 0, 0, 0)
          && m.millimetreWidth == m.millimetreHeight == 0)
    && (r.currentMode in r.modes ==>
          && m.outputs == [OUTPUT_ID] && m.x == r.crtcX && m.y == r.crtcY
          && m.width == r.modes[r.currentMode].width && m.height == r.modes[r.currentMode].height
          && (m.width <= screenWidth ==> Proportional(m.width, m.millimetreWidth, screenWidth, r.millimetreWidth))
          && (m.height <= screenHeight ==>
                Proportional(m.height, m.millimetreHeight, screenHeight, r.millimetreHeight)))
  }

  /** A part of the screen has its share of the screen's millimetres, rounded down. */
  predicate Proportional(pixels: Word16, part: Word32, screen: Word16, whole: Word32) {
    if screen == 0 then part == 0 else part * screen <= pixels * whole < part * screen + screen
  }

  lemma ShareOfScreen(pixels: Word16, whole: Word32, screen: Word16)
    requires pixels <= screen
    ensures Proportional(pixels, ScaledMillimetres(pixels, whole, screen), screen, whole)
  {
    if screen != 0 {
      ProductBound(pixels, whole, screen, whole);
      Share(pixels * whole, screen, whole);
    }
  }

  lemma Share(product: nat, screen: nat, whole: Word32)
    requires 0 < screen && product <= screen * whole
    ensures var part := product / screen % 0x1_0000_0000; part * screen <= product < part * screen + screen
  {
    Quotient(product, screen, whole);
    DivisionUnique(product / screen, 0, 0x1_0000_0000, product / screen);
  }

  lemma Quotient(product: nat, divisor: nat, most: nat)
    requires 0 < divisor && product <= divisor * most
    ensures product / divisor * divisor <= product < product / divisor * divisor + divisor
    ensures product / divisor <= most
  {
    var q := product / divisor;
    assert q * divisor + product % divisor == product;
    assert (q - most) * divisor == q * divisor - divisor * most;
    MultipleIsFar(q - most, divisor);
  }

  /** What a configuration change leaves: the candidate with the time of the change,
      and monitors that follow. */
  ghost predicate Reconfigured(r: Randr, candidate: Randr, width: Word16, height: Word16, now: Word32) {
    && r == candidate.(timestamp := now, configTimestamp := now, monitors := r.monitors)
    && MonitorsFollow(candidate.monitors, r, width, height)
  }

  lemma CommitReconfigures(candidate: Randr, width: Word16, height: Word16, now: Word32)
    ensures Reconfigured(Stamped(FollowedAll(candidate, width, height), Configuration, now), candidate, width, height,
                         now)
  {
    hide Proportional, ScaledMillimetres;
    var r := Stamped(FollowedAll(candidate, width, height), Configuration, now);
    forall name | name in candidate.monitors && candidate.monitors[name].automatic
      ensures ShowsCrtc(candidate.monitors[name], r.monitors[name], r, width, height)
    {
      if Enabled(candidate) {
        var mode := candidate.modes[candidate.currentMode];
        if mode.width <= width {
          ShareOfScreen(mode.width, candidate.millimetreWidth, width);
        }
        if mode.height <= height {
          ShareOfScreen(mode.height, candidate.millimetreHeight, height);
        }
      }
    }
  }

  // ---- Modes

  /** CreateMode succeeds exactly for a known window, a size, a name of 1 to 255
      characters that no mode has, and room; the mode is entered under a new id. */
  lemma CreateModeEffect(s: Screen, world: World, window: Word32, width: Word16, height: Word16, timing: ModeTiming,
                         name: string)
    ensures var (s', response) := CreateModeStep(s, world, window, width, height, timing, name);
            && (response.Replied? <==>
                  && window in world.windows && 0 < width && 0 < height && 0 < |name| < 256
                  && |s.randr.modes| < MAXIMUM_MODES && world.room
                  && forall id :: id in s.randr.modes ==> s.randr.modes[id].name != name)
            && (response.Replied? ==>
                  && response.reply.NewMode?
                  && var id := response.reply.id;
                     && id != 0 && id !in s.randr.modes && s'.width == s.width && s'.height == s.height
                     && Reconfigured(s'.randr, s.randr.(modes := s.randr.modes[id :=
                          ModeInfo(id, width, height, timing, name, false)], nextModeId := s'.randr.nextModeId),
                                     s.width, s.height, world.now))
  {
    hide FollowedAll, MonitorsFollow, FreshId;
    if |s.randr.modes| < MAXIMUM_MODES {
      CommitReconfigures(WithNewMode(s.randr, width, height, timing, name), s.width, s.height, world.now);
    }
  }

  /** DestroyMode succeeds exactly for a mode that is not built in, not shown and not
      listed, and removes only it. */
  lemma DestroyModeEffect(s: Screen, world: World, id: Word32)
    ensures var (s', response) := DestroyModeStep(s, world, id);
            && (response == Done <==>
                  && id in s.randr.modes && !s.randr.modes[id].builtIn && s.randr.currentMode != id
                  && id !in s.randr.outputModes && world.room)
            && (response == Failed(BadMode) <==> id !in s.randr.modes)
            && (response == Done ==>
                  && s'.width == s.width && s'.height == s.height
                  && Reconfigured(s'.randr, s.randr.(modes := s.randr.modes - {id}), s.width, s.height, world.now))
  {
    hide FollowedAll, MonitorsFollow;
    CommitReconfigures(s.randr.(modes := s.randr.modes - {id}), s.width, s.height, world.now);
  }

  /** A created mode can be destroyed, which restores the table. */
  lemma CreateThenDestroyMode(s: Screen, world: World, window: Word32, width: Word16, height: Word16,
                              timing: ModeTiming, name: string)
    requires CreateModeStep(s, world, window, width, height, timing, name).1.Replied?
    requires s.randr.currentMode == 0 || s.randr.currentMode in s.randr.modes
    requires forall id :: id in s.randr.outputModes ==> id in s.randr.modes
    ensures var (s', response) := CreateModeStep(s, world, window, width, height, timing, name);
            && response.reply.NewMode?
            && var (s'', destroyed) := DestroyModeStep(s', world, response.reply.id);
               && destroyed == Done && s''.randr.modes == s.randr.modes
               && s''.randr.outputModes == s.randr.outputModes && s''.randr.currentMode == s.randr.currentMode
  {
    hide FollowedAll, MonitorsFollow, FreshId;
    CreateModeEffect(s, world, window, width, height, timing, name);
    var (s', response) := CreateModeStep(s, world, window, width, height, timing, name);
    hide CreateModeStep;
    var id := response.reply.id;
    DestroyModeEffect(s', world, id);
    assert s.randr.modes[id := s'.randr.modes[id]] - {id} == s.randr.modes;
  }

  /** AddOutputMode lists an existing mode, once; the others stay in their order. */
  lemma AddOutputModeEffect(s: Screen, world: World, output: Word32, id: Word32)
    ensures var (s', response) := AddOutputModeStep(s, world, output, id);
            && (response == Done <==> output == OUTPUT_ID && id in s.randr.modes && world.room)
            && (response == Failed(BadOutput) <==> output != OUTPUT_ID)
            && (response == Done ==>
                  && s'.width == s.width && s'.height == s.height
                  && s.randr.outputModes <= s'.randr.outputModes
                  && s'.randr.outputModes[|s.randr.outputModes|..] == (if id in s.randr.outputModes then [] else [id])
                  && Reconfigured(s'.randr, s.randr.(outputModes := s'.randr.outputModes), s.width, s.height,
                                  world.now))
  {
    hide FollowedAll, MonitorsFollow;
    var candidate := if id in s.randr.outputModes then s.randr
                     else s.randr.(outputModes := s.randr.outputModes + [id]);
    CommitReconfigures(candidate, s.width, s.height, world.now);
  }

  /** DeleteOutputMode takes a listed mode that is neither shown nor built in off the list. */
  lemma DeleteOutputModeEffect(s: Screen, world: World, output: Word32, id: Word32)
    ensures var (s', response) := DeleteOutputModeStep(s, world, output, id);
            && (response == Done <==>
                  && output == OUTPUT_ID && id in s.randr.modes && s.randr.currentMode != id
                  && !s.randr.modes[id].builtIn && id in s.randr.outputModes && world.room)
            && (response == Done ==>
                  && s'.width == s.width && s'.height == s.height
                  && Reconfigured(s'.randr, s.randr.(outputModes := s'.randr.outputModes), s.width, s.height,
                                  world.now)
                  && FirstGone(s.randr.outputModes, s'.randr.outputModes, id))
  {
    hide FollowedAll, MonitorsFollow, FirstGone;
    if id in s.randr.outputModes {
      RemoveFirstGone(s.randr.outputModes, id);
    }
    CommitReconfigures(s.randr.(outputModes := RemoveFirst(s.randr.outputModes, id)), s.width, s.height, world.now);
  }

  /** `rest` is the list without the first place of an id. */
  ghost predicate FirstGone(ids: seq<Word32>, rest: seq<Word32>, id: Word32) {
    exists k :: 0 <= k < |ids| && ids[k] == id && id !in ids[..k] && rest == ids[..k] + ids[k + 1..]
  }

  lemma RemoveFirstGone(ids: seq<Word32>, id: Word32)
    requires id in ids
    ensures FirstGone(ids, RemoveFirst(ids, id), id)
  {
    var k := FirstPlace(ids, id);
    EraseFound(ids, id, k);
  }

  lemma {:induction false} FirstPlace(ids: seq<Word32>, id: Word32) returns (k: nat)
    requires id in ids
    ensures k < |ids| && ids[k] == id && id !in ids[..k]
  {
    if ids[0] == id {
      k := 0;
    } else {
      k := FirstPlace(ids[1..], id);
      k := k + 1;
      assert ids[..k] == [ids[0]] + ids[1..][..k - 1];
    }
  }

  // ---- The CRTC and the screen

  /** SetCrtcConfig succeeds exactly when it turns the CRTC off without outputs, or
      shows a listed mode on the one output, unrotated and inside the screen; the
      CRTC then has that mode and place. A stale time is answered with a status
      and changes nothing. */
  lemma SetCrtcConfigEffect(s: Screen, world: World, crtc: Word32, configTimestamp: Word32, x: Word16, y: Word16,
                            id: Word32, rotation: Word16, outputs: seq<Word32>)
    ensures var (s', response) := SetCrtcConfigStep(s, world, crtc, configTimestamp, x, y, id, rotation, outputs);
            var current := configTimestamp == 0 || configTimestamp == s.randr.configTimestamp;
            && (response == Failed(BadCrtc) <==> crtc != CRTC_ID)
            && (response == Replied(Status(1)) <==> crtc == CRTC_ID && !current)
            && (!current ==> s' == s)
            && (response == Replied(Status(0)) <==>
                  && crtc == CRTC_ID && current && rotation == 1 && world.room
                  && if id == 0 then outputs == []
                     else
                       && id in s.randr.modes && id in s.randr.outputModes && outputs == [OUTPUT_ID]
                       && x < 0x8000 && y < 0x8000
                       && x + s.randr.modes[id].width <= s.width && y + s.randr.modes[id].height <= s.height)
            && (response == Replied(Status(0)) ==>
                  && s'.width == s.width && s'.height == s.height
                  && Reconfigured(s'.randr, s.randr.(currentMode := id, crtcX := if id == 0 then 0 else x,
                                                           crtcY := if id == 0 then 0 else y, rotation := 1),
                                  s.width, s.height, world.now))
  {
    hide FollowedAll, MonitorsFollow;
    CommitReconfigures(s.randr.(currentMode := id, crtcX := if id == 0 then 0 else SignedWord(x),
                                         crtcY := if id == 0 then 0 else SignedWord(y), rotation := rotation),
                       s.width, s.height, world.now);
  }

  /** For a lit mode that lies on a screen the sums of the fit test do not wrap. */
  lemma CrtcExceedsIff(s: Screen, width: Word16, height: Word16)
    requires s.randr.currentMode in s.randr.modes ==>
               0 <= s.randr.crtcX && s.randr.crtcX + s.randr.modes[s.randr.currentMode].width <= s.width &&
               0 <= s.randr.crtcY && s.randr.crtcY + s.randr.modes[s.randr.currentMode].height <= s.height
    ensures CrtcExceeds(s.randr, width, height) <==>
            && s.randr.currentMode in s.randr.modes
            && (s.randr.crtcX + s.randr.modes[s.randr.currentMode].width > width ||
                s.randr.crtcY + s.randr.modes[s.randr.currentMode].height > height)
  {
    if s.randr.currentMode in s.randr.modes {
      UnsignedSum(s.randr.crtcX, s.randr.modes[s.randr.currentMode].width, s.width);
      UnsignedSum(s.randr.crtcY, s.randr.modes[s.randr.currentMode].height, s.height);
    }
    hide Unsigned;
  }

  lemma UnsignedSum(at: int, extent: Word16, limit: Word16)
    requires 0 <= at && at + extent <= limit
    ensures Unsigned(Unsigned(at) + extent) == at + extent
  {
  }

  /** SetScreenSize sets exactly the size, in pixels and in millimetres. From a state
      whose lit mode lies on the screen it succeeds exactly for a size of 1 to 4096
      that still holds the mode. */
  lemma SetScreenSizeEffect(s: Screen, world: World, window: Word32, width: Word16, height: Word16,
                            millimetreWidth: Word32, millimetreHeight: Word32)
    requires s.randr.currentMode in s.randr.modes ==>
               0 <= s.randr.crtcX && s.randr.crtcX + s.randr.modes[s.randr.currentMode].width <= s.width &&
               0 <= s.randr.crtcY && s.randr.crtcY + s.randr.modes[s.randr.currentMode].height <= s.height
    ensures var (s', response) := SetScreenSizeStep(s, world, window, width, height, millimetreWidth, millimetreHeight);
            && (response == Done <==>
                  && window in world.windows && 0 < width <= 4096 && 0 < height <= 4096
                  && 0 < millimetreWidth && 0 < millimetreHeight && world.surfaces && world.room
                  && (s.randr.currentMode in s.randr.modes ==>
                        s.randr.crtcX + s.randr.modes[s.randr.currentMode].width <= width &&
                        s.randr.crtcY + s.randr.modes[s.randr.currentMode].height <= height))
            && (response == Done ==>
                  && s'.width == width && s'.height == height
                  && Reconfigured(s'.randr, s.randr.(millimetreWidth := millimetreWidth,
                                                     millimetreHeight := millimetreHeight), width, height, world.now))
  {
    CrtcExceedsIff(s, width, height);
    hide FollowedAll, Reconfigured, CrtcExceeds;
    CommitReconfigures(s.randr.(millimetreWidth := millimetreWidth, millimetreHeight := millimetreHeight),
                       width, height, world.now);
  }

  // ---- Monitors

  function Signed(w: Word16): int { if w < 0x8000 then w else w - 0x1_0000 }

  /** The monitor list of a SetMonitor request: its own monitor, every user monitor, and
      the automatic ones that show none of its outputs; a primary monitor takes the
      flag from all others. */
  ghost predicate Joined(listed: Monitors, before: Monitors, m: MonitorRequest) {
    && m.name in listed
    && listed[m.name] == Monitor(m.name, m.primary == 1, false, Signed(m.x), Signed(m.y), m.width, m.height,
                                 m.millimetreWidth, m.millimetreHeight, m.outputs)
    && (forall name :: name in listed && name != m.name ==> name in before)
    && forall name :: name in before ==>
         && (name in listed <==> !before[name].automatic || forall o :: o in m.outputs ==> o !in before[name].outputs)
         && (name in listed ==>
               listed[name] == if m.primary == 1 then before[name].(primary := false) else before[name])
  }

  /** SetMonitor succeeds exactly for a known window and a new name that is an atom but
      not the server's own, with at most the one output there is. */
  lemma SetMonitorEffect(s: Screen, world: World, window: Word32, m: MonitorRequest) returns (listed: Monitors)
    ensures var (s', response) := SetMonitorStep(s, world, window, m);
            && (response == Done <==>
                  && window in world.windows && m.name in world.atoms && world.atoms[m.name] != AUTOMATIC_NAME
                  && m.primary <= 1 && m.automatic <= 1 && |m.outputs| == m.outputCount
                  && m.name !in s.randr.monitors && |s.randr.monitors| < MAXIMUM_MONITORS
                  && (m.outputs == [] || m.outputs == [OUTPUT_ID]) && world.room)
            && (response == Failed(BadWindow) <==> window !in world.windows)
            && (response == Done ==>
                  && s'.width == s.width && s'.height == s.height && Joined(listed, s.randr.monitors, m)
                  && Reconfigured(s'.randr,
                                  s.randr.(monitors := listed,
                                           primaryOutput := if m.primary == 1 && m.outputs != [] then OUTPUT_ID
                                                            else s.randr.primaryOutput),
                                  s.width, s.height, world.now))
  {
    hide FollowedAll, MonitorsFollow, Joined, WithMonitor;
    listed := WithMonitor(s.randr.monitors, Requested(m));
    if m.primary <= 1 && m.name !in s.randr.monitors {
      NewListJoins(s.randr.monitors, m);
    }
    CommitReconfigures(s.randr.(monitors := listed,
                                primaryOutput := if m.primary != 0 && m.outputs != [] then m.outputs[0]
                                                 else s.randr.primaryOutput),
                       s.width, s.height, world.now);
  }

  lemma NewListJoins(before: Monitors, m: MonitorRequest)
    requires m.name !in before && m.primary <= 1
    ensures Joined(WithMonitor(before, Requested(m)), before, m)
  {
  }

  /** DeleteMonitor succeeds exactly for a user monitor; the others stay, and where a lit
      output has none left, an automatic one takes the place. */
  lemma DeleteMonitorEffect(s: Screen, world: World, window: Word32, name: AtomId) returns (listed: Monitors)
    requires world.automatic in world.atoms
    ensures var (s', response) := DeleteMonitorStep(s, world, window, name);
            var rest := s.randr.monitors - {name};
            var bare := forall other :: other in rest ==> OUTPUT_ID !in rest[other].outputs;
            && (response == Done <==>
                  && window in world.windows && name in world.atoms && name in s.randr.monitors
                  && !s.randr.monitors[name].automatic && world.room)
            && (response == Done ==>
                  && s'.width == s.width && s'.height == s.height
                  && listed == (if bare && s.randr.currentMode != 0 && world.automatic !in rest
                                then rest[world.automatic :=
                                            Monitor(world.automatic, true, true, 0, 0, 0, 0, 0, 0, [OUTPUT_ID])]
                                else rest)
                  && Reconfigured(s'.randr, s.randr.(monitors := listed), s.width, s.height, world.now))
  {
    hide FollowedAll, MonitorsFollow;
    listed := WithoutMonitor(s.randr, name, world.automatic);
    CommitReconfigures(s.randr.(monitors := listed), s.width, s.height, world.now);
  }

  /** SetOutputPrimary marks exactly the monitors that show the output as primary. */
  lemma SetOutputPrimaryEffect(s: Screen, world: World, window: Word32, output: Word32) returns (listed: Monitors)
    ensures var (s', response) := SetOutputPrimaryStep(s, world, window, output);
            && (response == Done <==> window in world.windows && (output == 0 || output == OUTPUT_ID) && world.room)
            && (response == Done ==>
                  && s'.width == s.width && s'.height == s.height
                  && listed.Keys == s.randr.monitors.Keys
                  && (forall name :: name in listed ==>
                        listed[name] == s.randr.monitors[name].(primary := output != 0 &&
                                                                           output in s.randr.monitors[name].outputs))
                  && Reconfigured(s'.randr, s.randr.(monitors := listed, primaryOutput := output), s.width, s.height,
                                  world.now))
  {
    hide FollowedAll, MonitorsFollow;
    listed := MarkedPrimary(s.randr.monitors, output);
    CommitReconfigures(s.randr.(monitors := listed, primaryOutput := output), s.width, s.height, world.now);
  }

  // ---- Settings and properties

  /** What any other commit leaves: the candidate, with monitors that follow. */
  ghost predicate Refreshed(r: Randr, candidate: Randr, width: Word16, height: Word16) {
    && r == candidate.(monitors := r.monitors)
    && MonitorsFollow(candidate.monitors, r, width, height)
  }

  lemma CommitUpdates(candidate: Randr, notify: Notify, width: Word16, height: Word16, now: Word32)
    requires notify != Configuration
    ensures Refreshed(Stamped(FollowedAll(candidate, width, height), notify, now), candidate, width, height)
  {
    CommitReconfigures(candidate, width, height, now);
    var r := Stamped(FollowedAll(candidate, width, height), notify, now);
    var r' := Stamped(FollowedAll(candidate, width, height), Configuration, now);
    assert r.monitors == r'.monitors;
    forall name | name in candidate.monitors && candidate.monitors[name].automatic
      ensures ShowsCrtc(candidate.monitors[name], r.monitors[name], r, width, height)
    {
      assert ShowsCrtc(candidate.monitors[name], r'.monitors[name], r', width, height);
    }
  }

  /** SetCrtcGamma takes three ramps of the stored size, one behind the other. */
  lemma SetGammaEffect(s: Screen, world: World, crtc: Word32, size: Word16, components: seq<Word16>)
    ensures var (s', response) := SetGammaStep(s, world, crtc, size, components);
            && (response == Done <==>
                  crtc == CRTC_ID && size == |s.randr.gammaRed| && |components| == 3 * size && world.room)
            && (response == Done ==>
                  && s'.width == s.width && s'.height == s.height
                  && |s'.randr.gammaRed| == |s'.randr.gammaGreen| == |s'.randr.gammaBlue| == size
                  && s'.randr.gammaRed + s'.randr.gammaGreen + s'.randr.gammaBlue == components
                  && Refreshed(s'.randr, s.randr.(gammaRed := s'.randr.gammaRed, gammaGreen := s'.randr.gammaGreen,
                                                      gammaBlue := s'.randr.gammaBlue), s.width, s.height))
  {
    hide FollowedAll, MonitorsFollow;
    var n := |s.randr.gammaRed|;
    if |components| == n * 3 {
      CommitUpdates(s.randr.(gammaRed := components[..n], gammaGreen := components[n..2 * n],
                             gammaBlue := components[2 * n..]), Silent, s.width, s.height, world.now);
      assert components == components[..n] + components[n..2 * n] + components[2 * n..];
    }
  }

  /** SetScreenConfig takes only the one size, unrotated, at 60 Hz or no rate; it is refused
      with a status when its configuration time is not the current one, or its own
      time lies, on a clock that wraps, before the last change. */
  lemma SetScreenConfigEffect(s: Screen, world: World, window: Word32, timestamp: Word32, configTimestamp: Word32,
                              size: Word16, rotation: Word16, rate: Word16)
    requires window in world.windows
    ensures var (s', response) :=
              SetScreenConfigStep(s, world, window, timestamp, configTimestamp, size, rotation, rate);
            var current := configTimestamp == s.randr.configTimestamp;
            var late := timestamp != 0 &&
                        (if timestamp >= s.randr.timestamp then timestamp - s.randr.timestamp >= 0x8000_0000
                         else s.randr.timestamp - timestamp <= 0x8000_0000);
            && (response == Replied(Status(1)) <==> !current)
            && (response == Replied(Status(2)) <==> current && late)
            && (response == Replied(Status(0)) <==>
                  current && !late && size == 0 && rotation == 1 && (rate == 0 || rate == 60) && world.room)
            && (response == Replied(Status(0)) ==>
                  && s'.width == s.width && s'.height == s.height
                  && Reconfigured(s'.randr, s.randr.(rotation := 1), s.width, s.height, world.now))
            && (response != Replied(Status(0)) ==> s' == s)
  {
    hide FollowedAll, MonitorsFollow;
    CommitReconfigures(s.randr.(rotation := rotation), s.width, s.height, world.now);
  }

  /** SetCrtcTransform and SetPanning store what they are sent. */
  lemma TransformAndPanningEffect(s: Screen, world: World, crtc: Word32, transform: Transform, values: seq<int>)
    ensures var (s', response) := SetTransformStep(s, world, crtc, transform);
            && (response == Done <==> crtc == CRTC_ID && |transform.parameters| <= 64 && world.room)
            && (response == Done ==>
                  && s'.width == s.width && s'.height == s.height
                  && Reconfigured(s'.randr, s.randr.(transform := transform), s.width, s.height, world.now))
    ensures var (s', response) := SetPanningStep(s, world, crtc, values);
            && (response == Replied(Panned) <==> crtc == CRTC_ID && world.room)
            && (response == Replied(Panned) ==>
                  && s'.width == s.width && s'.height == s.height
                  && Reconfigured(s'.randr, s.randr.(panning := values), s.width, s.height, world.now))
  {
    hide FollowedAll, MonitorsFollow;
    CommitReconfigures(s.randr.(transform := transform), s.width, s.height, world.now);
    CommitReconfigures(s.randr.(panning := values), s.width, s.height, world.now);
  }

  /** Nobody has two entries for one window. */
  predicate OneEntryEach(list: seq<Subscription>) {
    forall i, j :: 0 <= i < j < |list| ==> !(list[i].client == list[j].client && list[i].window == list[j].window)
  }

  /** SelectInput leaves a client with exactly the mask it asked for on the window, none
      for a mask of zero, and all other entries. */
  lemma SelectInputEffect(s: Screen, world: World, client: Word32, window: Word32, mask: Word16, e: Subscription)
    requires OneEntryEach(s.randr.subscriptions)
    ensures var (s', response) := SelectInputStep(s, world, client, window, mask);
            && (response == Done <==> window in world.windows && mask < 0x100 && (mask % 2 == 1 ==> world.room))
            && s' == s.(randr := s.randr.(subscriptions := s'.randr.subscriptions))
            && OneEntryEach(s'.randr.subscriptions)
            && (response == Done ==> (e in s'.randr.subscriptions <==>
                  if e.client == client && e.window == window then mask != 0 && e.mask == mask
                  else e in s.randr.subscriptions))
  {
    SubscribedEntries(s.randr.subscriptions, client, window, mask, e);
    hide Subscribed, OneEntryEach;
  }

  lemma {:induction false} SubscribedEntries(list: seq<Subscription>, client: Word32, window: Word32, mask: Word16,
                                             e: Subscription)
    requires OneEntryEach(list)
    ensures var after := Subscribed(list, client, window, mask);
            && OneEntryEach(after)
            && (e in after <==> if e.client == client && e.window == window then mask != 0 && e.mask == mask
                                else e in list)
  {
    var k := FindSubscription(list, client, window);
    hide FindSubscription;
    var after := Subscribed(list, client, window, mask);
    if k < |list| && mask == 0 {
      assert list == list[..k] + [list[k]] + list[k + 1..];
    } else if k < |list| {
      assert after[k] == Subscription(client, window, mask);
      assert after[..k] == list[..k] && after[k + 1..] == list[k + 1..];
      assert list == list[..k] + [list[k]] + list[k + 1..] && after == after[..k] + [after[k]] + after[k + 1..];
    }
  }

  /** ConfigureOutputProperty sets the property's kind and valid values, drops the pending
      value of one that has none any more, and keeps the rest. */
  lemma ConfigureEffect(s: Screen, world: World, output: Word32, property: AtomId, pending: Byte, range: Byte,
                        values: seq<int>)
    ensures var (s', response) := ConfigureStep(s, world, output, property, pending, range, values);
            var before := s.randr.outputProperties;
            var earlier := if property in before then before[property]
                        else OutputProperty(NO_VALUE, NO_VALUE, [], false, false, false);
            && (response == Done <==>
                  && output == OUTPUT_ID && property in world.atoms && pending <= 1 && range <= 1
                  && (property in before || |before| < MAXIMUM_PROPERTIES)
                  && (range == 1 ==> |values| % 2 == 0) && world.room)
            && (response == Done ==>
                  && s'.width == s.width && s'.height == s.height
                  && Refreshed(s'.randr, s.randr.(outputProperties := before[property :=
                       OutputProperty(earlier.value, if pending == 1 then earlier.pendingValue else NO_VALUE, values,
                                      pending == 1, range == 1, earlier.immutable)]), s.width, s.height))
  {
    hide FollowedAll, MonitorsFollow;
    CommitUpdates(s.randr.(outputProperties := s.randr.outputProperties[property :=
      Configured(Current(s.randr, property), pending, range, values)]), Silent, s.width, s.height, world.now);
  }

  /** DeleteOutputProperty removes a property that may change, and only it. */
  lemma DeletePropertyEffect(s: Screen, world: World, output: Word32, property: AtomId)
    ensures var (s', response) := DeleteStep(s, world, output, property);
            && (response == Done <==>
                  && output == OUTPUT_ID && property in world.atoms && property in s.randr.outputProperties
                  && !s.randr.outputProperties[property].immutable && world.room)
            && (response == Done ==>
                  && s'.width == s.width && s'.height == s.height
                  && Refreshed(s'.randr, s.randr.(outputProperties := s.randr.outputProperties - {property}),
                              s.width, s.height))
  {
    hide FollowedAll, MonitorsFollow;
    CommitUpdates(s.randr.(outputProperties := s.randr.outputProperties - {property}), PropertyChange, s.width,
                  s.height, world.now);
  }

  /** GetOutputProperty answers for the selected value: nothing for an unknown property, the
      type and size alone for another type, and otherwise a page of whole units with
      the bytes of the value from the word offset on, at most as many words as asked
      for; the property goes with its last page if the request says so. */
  lemma GetPropertyEffect(s: Screen, world: World, output: Word32, property: AtomId, typ: AtomId, offset: Word32,
                          length: Word32, remove: Byte, pending: Byte, order: ByteOrder)
    requires PropertiesOk(s.randr) && output == OUTPUT_ID && property in world.atoms
    requires (typ == 0 || typ in world.atoms) && remove <= 1 && pending <= 1
    ensures var (s', response) := GetStep(s, world, output, property, typ, offset, length, remove, pending, order);
            var before := s.randr.outputProperties;
            && (property !in before ==> response == Replied(Page(0, 0, 0, 0, [])) && s' == s)
            && (property in before ==>
                  var p := before[property];
                  var v := if pending == 1 && p.pending then p.pendingValue else p.value;
                  && (response == Failed(BadAccess) <==> remove == 1 && p.immutable)
                  && (!(remove == 1 && p.immutable) ==>
                        && (typ != 0 && typ != v.typ ==>
                              response == Replied(Page(v.typ, v.format, |v.data|, 0, [])) && s' == s)
                        && (typ == 0 || typ == v.typ ==>
                              && (response == Failed(BadValue) <==> 4 * offset > |v.data|)
                              && (4 * offset <= |v.data| && v.format != 0 && (remove == 0 || world.room) ==>
                                    && response.Replied? && response.reply.Page?
                                    && IsPage(response.reply, v, offset, length, order)
                                    && s'.width == s.width && s'.height == s.height
                                    && if remove == 1 && response.reply.bytesAfter == 0
                                       then Refreshed(s'.randr, s.randr.(outputProperties := before - {property}),
                                                      s.width, s.height)
                                       else s' == s))))
  {
    hide FollowedAll, MonitorsFollow, TotalBytes, IsPage, PageReply, Refreshed;
    if property in s.randr.outputProperties {
      var v := Selected(s.randr.outputProperties[property], pending);
      assert PropertyOk(s.randr.outputProperties[property]);
      hide PropertiesOk, PropertyOk;
      if 4 * offset <= |v.data| && v.format != 0 {
        RepliesArePages(v, offset, length, order);
      }
      hide ValueOk;
      CommitUpdates(s.randr.(outputProperties := s.randr.outputProperties - {property}), PropertyChange, s.width,
                    s.height, world.now);
    }
  }

  predicate IsPage(page: Reply, v: PropertyValue, offset: Word32, length: Word32, order: ByteOrder)
    requires page.Page? && ValidFormat(v.format) && 4 * offset <= |v.data|
  {
    var rest := |v.data| - 4 * offset;
    && page.typ == v.typ && page.format == v.format
    && |page.data| == (if 4 * length <= rest then 4 * length else rest)
    && page.bytesAfter == rest - |page.data|
    && page.units * (v.format / 8) == |page.data|
    && Swapped(page.data, v.format / 8, order) == v.data[4 * offset..4 * offset + |page.data|]
  }

  lemma RepliesArePages(v: PropertyValue, offset: Word32, length: Word32, order: ByteOrder)
    requires ValueOk(v) && v.format != 0 && 4 * offset <= |v.data|
    ensures IsPage(PageReply(v, offset, length, order), v, offset, length, order)
  {
    PageIsWhole(v, offset, length);
    hide Swapped;
    var page := PageOf(v.data, offset, length);
    SwappedTwice(page, Unit(v.format), order);
    assert page == v.data[4 * offset..4 * offset + |page|];
  }

  // ---- Errors: which fault is reported, when several are there

  lemma ModeErrors(s: Screen, world: World, window: Word32, width: Word16, height: Word16, timing: ModeTiming,
                   name: string, output: Word32, id: Word32)
    ensures var create := CreateModeStep(s, world, window, width, height, timing, name).1;
            var sized := 0 < width && 0 < height && 0 < |name| < 256;
            && (create == Failed(BadWindow) <==> window !in world.windows)
            && (create == Failed(BadValue) <==> window in world.windows && !sized)
            && (create == Failed(BadName) <==>
                  && window in world.windows && sized && |s.randr.modes| < MAXIMUM_MODES
                  && exists other :: other in s.randr.modes && s.randr.modes[other].name == name)
    ensures var destroy := DestroyModeStep(s, world, id).1;
            && (destroy == Failed(BadMode) <==> id !in s.randr.modes)
            && (destroy == Failed(BadMatch) <==> id in s.randr.modes && s.randr.modes[id].builtIn)
            && (destroy == Failed(BadAccess) <==>
                  id in s.randr.modes && !s.randr.modes[id].builtIn &&
                  (s.randr.currentMode == id || id in s.randr.outputModes))
    ensures var add, delete := AddOutputModeStep(s, world, output, id).1, DeleteOutputModeStep(s, world, output, id).1;
            && (add == Failed(BadOutput) <==> output != OUTPUT_ID)
            && (add == Failed(BadMode) <==> output == OUTPUT_ID && id !in s.randr.modes)
            && (delete == Failed(BadOutput) <==> output != OUTPUT_ID)
            && (delete == Failed(BadMode) <==> output == OUTPUT_ID && id !in s.randr.modes)
            && (delete == Failed(BadMatch) <==> output == OUTPUT_ID && id in s.randr.modes && s.randr.currentMode == id)
            && (delete == Failed(BadAccess) <==>
                  output == OUTPUT_ID && id in s.randr.modes && s.randr.currentMode != id &&
                  (s.randr.modes[id].builtIn || id !in s.randr.outputModes))
  {
    hide FollowedAll, FreshId;
  }

  lemma CrtcErrors(s: Screen, world: World, crtc: Word32, configTimestamp: Word32, x: Word16, y: Word16, id: Word32,
                   rotation: Word16, outputs: seq<Word32>)
    requires crtc == CRTC_ID && (configTimestamp == 0 || configTimestamp == s.randr.configTimestamp)
    ensures var response := SetCrtcConfigStep(s, world, crtc, configTimestamp, x, y, id, rotation, outputs).1;
            var known := rotation < 64 && rotation % 16 in {1, 2, 4, 8};
            var one := rotation == 1 && id in s.randr.modes && id != 0 && |outputs| == 1;
            var listed := one && outputs[0] == OUTPUT_ID && id in s.randr.outputModes;
            && (response == Failed(BadMode) <==> rotation == 1 && id != 0 && id !in s.randr.modes)
            && (response == Failed(BadOutput) <==> one && outputs[0] != OUTPUT_ID)
            && (response == Failed(BadValue) <==>
                  || !known
                  || (listed && (x >= 0x8000 || x + s.randr.modes[id].width > s.width ||
                                 y >= 0x8000 || y + s.randr.modes[id].height > s.height)))
            && (response == Failed(BadMatch) <==>
                  || (known && rotation != 1)
                  || (rotation == 1 && id == 0 && outputs != [])
                  || (rotation == 1 && id != 0 && id in s.randr.modes && |outputs| != 1)
                  || (one && outputs[0] == OUTPUT_ID && id !in s.randr.outputModes))
  {
    hide FollowedAll;
  }

  lemma ScreenSizeErrors(s: Screen, world: World, window: Word32, width: Word16, height: Word16,
                         millimetreWidth: Word32, millimetreHeight: Word32)
    requires s.randr.currentMode in s.randr.modes ==>
               0 <= s.randr.crtcX && s.randr.crtcX + s.randr.modes[s.randr.currentMode].width <= s.width &&
               0 <= s.randr.crtcY && s.randr.crtcY + s.randr.modes[s.randr.currentMode].height <= s.height
    ensures var response :=
              SetScreenSizeStep(s, world, window, width, height, millimetreWidth, millimetreHeight).1;
            var sized := 0 < width <= 4096 && 0 < height <= 4096 && 0 < millimetreWidth && 0 < millimetreHeight;
            && (response == Failed(BadWindow) <==> window !in world.windows)
            && (response == Failed(BadValue) <==> window in world.windows && !sized)
            && (response == Failed(BadMatch) <==>
                  && window in world.windows && sized && s.randr.currentMode in s.randr.modes
                  && (s.randr.crtcX + s.randr.modes[s.randr.currentMode].width > width ||
                      s.randr.crtcY + s.randr.modes[s.randr.currentMode].height > height))
  {
    CrtcExceedsIff(s, width, height);
    hide FollowedAll, CrtcExceeds;
  }

  lemma MonitorErrors(s: Screen, world: World, window: Word32, m: MonitorRequest, name: AtomId)
    ensures var put := SetMonitorStep(s, world, window, m).1;
            var named := window in world.windows && m.name in world.atoms;
            var valid := named && world.atoms[m.name] != AUTOMATIC_NAME && m.primary <= 1 && m.automatic <= 1 &&
                         |m.outputs| == m.outputCount && m.name !in s.randr.monitors;
            var room := valid && |s.randr.monitors| < MAXIMUM_MONITORS;
            && (put == Failed(BadWindow) <==> window !in world.windows)
            && (put == Failed(BadAtom) <==> window in world.windows && m.name !in world.atoms)
            && (put == Failed(BadValue) <==> named && !valid)
            && (put == Failed(BadOutput) <==>
                  room && m.outputs != [] && (m.outputs[0] != OUTPUT_ID ||
                                              (|m.outputs| > 1 && m.outputs[1] != OUTPUT_ID)))
            && (put == Failed(BadMatch) <==> room && |m.outputs| > 1 && m.outputs[0] == m.outputs[1] == OUTPUT_ID)
    ensures var delete := DeleteMonitorStep(s, world, window, name).1;
            var named := window in world.windows && name in world.atoms;
            && (delete == Failed(BadWindow) <==> window !in world.windows)
            && (delete == Failed(BadAtom) <==> window in world.windows && name !in world.atoms)
            && (delete == Failed(BadValue) <==> named && name !in s.randr.monitors)
            && (delete == Failed(BadMatch) <==> named && name in s.randr.monitors && s.randr.monitors[name].automatic)
  {
    hide FollowedAll, WithMonitor;
  }

  lemma ChangePropertyErrors(s: Screen, world: World, output: Word32, property: AtomId, typ: AtomId, format: Byte,
                             mode: Byte, units: Word32, data: seq<Byte>, order: ByteOrder)
    ensures var response := ChangeStep(s, world, output, property, typ, format, mode, units, data, order).1;
            var before := s.randr.outputProperties;
            var atoms := property in world.atoms && typ in world.atoms;
            var valid := output == OUTPUT_ID && atoms && format in {8, 16, 32} && mode <= 2;
            var sized := valid && |data| == units * (format / 8);
            var stored := if property !in before then NO_VALUE
                          else if before[property].pending then before[property].pendingValue
                          else before[property].value;
            var full := property !in before && |before| >= MAXIMUM_PROPERTIES;
            var fixed := property in before && before[property].immutable;
            && (response == Failed(BadOutput) <==> output != OUTPUT_ID)
            && (response == Failed(BadAtom) <==> output == OUTPUT_ID && !atoms)
            && (response == Failed(BadValue) <==> output == OUTPUT_ID && atoms && !valid)
            && (response == Failed(BadLength) <==> valid && !sized)
            && (response == Failed(BadAccess) <==> sized && fixed)
            && (response == Failed(BadMatch) <==>
                  sized && !fixed && !full && mode != 0 && stored.data != [] &&
                  (stored.typ != typ || stored.format != format))
  {
    hide FollowedAll, Swapped, FitsAfter, ChangedTable;
  }
}
