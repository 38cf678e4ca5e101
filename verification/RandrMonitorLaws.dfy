/** When automatic and user monitors share the output, and when it has a monitor at all. */
module RandrMonitorLaws {
  import opened Wire
  import opened RandrState
  import opened RandrModes
  import opened RandrProperties
  import opened RandrMonitors
  import opened RandrRequests
  import opened RandrRuns

  /** No automatic monitor shares an output with a user monitor. */
  predicate Exclusive(monitors: Monitors) {
    forall a, u :: a in monitors && u in monitors && monitors[a].automatic && !monitors[u].automatic ==>
      !SharesOutput(monitors[a].outputs, monitors[u].outputs)
  }

  /** Some user monitor claims the output. */
  predicate UserClaims(monitors: Monitors) {
    exists name :: name in monitors && !monitors[name].automatic && OUTPUT_ID in monitors[name].outputs
  }

  /** While the CRTC is off nothing is shared; while it is on, sharing means
      that the automatic monitor and a claiming user monitor both exist. */
  lemma ExclusiveIff(r: Randr, automatic: AtomId)
    requires MonitorsOk(r, automatic) && Following(r, automatic)
    ensures Exclusive(r.monitors) <==> !(Enabled(r) && automatic in r.monitors && UserClaims(r.monitors))
  {
    if Enabled(r) && automatic in r.monitors && UserClaims(r.monitors) {
      var u :| u in r.monitors && !r.monitors[u].automatic && OUTPUT_ID in r.monitors[u].outputs;
      assert OUTPUT_ID in r.monitors[automatic].outputs;
      assert SharesOutput(r.monitors[automatic].outputs, r.monitors[u].outputs);
    }
  }

  lemma CoveredIff(r: Randr, automatic: AtomId)
    requires MonitorsOk(r, automatic) && Following(r, automatic) && Enabled(r)
    ensures OutputCovered(r.monitors) <==> automatic in r.monitors || UserClaims(r.monitors)
  {
    if automatic in r.monitors {
      assert OUTPUT_ID in r.monitors[automatic].outputs;
    }
  }

  /** A commit changes no monitor's kind and no user monitor's outputs. */
  lemma CommitKeepsClaims(r: Randr, width: Word16, height: Word16, automatic: AtomId)
    ensures var r' := FollowedAll(r, width, height);
            (automatic in r'.monitors <==> automatic in r.monitors) &&
              (UserClaims(r'.monitors) <==> UserClaims(r.monitors))
  {
    var r' := FollowedAll(r, width, height);
    if UserClaims(r.monitors) {
      var u :| u in r.monitors && !r.monitors[u].automatic && OUTPUT_ID in r.monitors[u].outputs;
      assert u in r'.monitors && r'.monitors[u] == r.monitors[u];
    }
  }

  lemma NewMonitorClaims(r: Randr, m: MonitorRequest, automatic: AtomId)
    requires MonitorsOk(r, automatic) && Following(r, automatic) && m.name !in r.monitors && m.name != automatic
    requires OutputsError(m.outputs) == Done
    ensures var monitors := WithMonitor(r.monitors, Requested(m));
            && (UserClaims(monitors) <==> UserClaims(r.monitors) || m.outputs != [])
            && (automatic in monitors <==> automatic in r.monitors && !(Enabled(r) && m.outputs != []))
  {
    var monitors := WithMonitor(r.monitors, Requested(m));
    if UserClaims(r.monitors) {
      var u :| u in r.monitors && !r.monitors[u].automatic && OUTPUT_ID in r.monitors[u].outputs;
      assert u in monitors && !monitors[u].automatic && monitors[u].outputs == r.monitors[u].outputs;
    }
    if m.outputs != [] {
      assert monitors[m.name] == Requested(m) && OUTPUT_ID in monitors[m.name].outputs;
      if automatic in r.monitors && Enabled(r) {
        assert OUTPUT_ID in r.monitors[automatic].outputs;
      }
    }
  }

  lemma LessMonitorClaims(r: Randr, name: AtomId, automatic: AtomId)
    requires MonitorsOk(r, automatic) && Following(r, automatic) && name in r.monitors && name != automatic
    requires r.currentMode != 0 <==> Enabled(r)
    ensures var monitors := WithoutMonitor(r, name, automatic);
            && (UserClaims(monitors) <==> UserClaims(r.monitors - {name}))
            && (automatic in monitors <==> automatic in r.monitors || (Enabled(r) && !UserClaims(r.monitors - {name})))
  {
    var rest, monitors := r.monitors - {name}, WithoutMonitor(r, name, automatic);
    if UserClaims(rest) {
      var u :| u in rest && !rest[u].automatic && OUTPUT_ID in rest[u].outputs;
      assert u in monitors && monitors[u] == rest[u];
    }
    if automatic in rest && Enabled(r) {
      assert OUTPUT_ID in rest[automatic].outputs;
    }
  }

  // ---- Runs of SetMonitor and DeleteMonitor

  /** What a monitor request promises about the states before and after it. */
  ghost predicate KeepsApart(s: Screen, s': Screen, automatic: AtomId) {
    && Inv(s', automatic) && (Enabled(s'.randr) <==> Enabled(s.randr))
    && (Exclusive(s.randr.monitors) ==> Exclusive(s'.randr.monitors))
    && (Enabled(s.randr) && OutputCovered(s.randr.monitors) ==> OutputCovered(s'.randr.monitors))
  }

  /** It is enough to know who claims the output before and after. */
  lemma ApartFromClaims(s: Screen, s': Screen, automatic: AtomId)
    requires Inv(s, automatic) && Inv(s', automatic)
    requires s'.randr.modes == s.randr.modes && s'.randr.currentMode == s.randr.currentMode
    requires Enabled(s.randr) ==>
               (automatic in s'.randr.monitors && UserClaims(s'.randr.monitors) ==>
                automatic in s.randr.monitors && UserClaims(s.randr.monitors)) &&
               (automatic in s.randr.monitors || UserClaims(s.randr.monitors) ==>
                automatic in s'.randr.monitors || UserClaims(s'.randr.monitors))
    ensures KeepsApart(s, s', automatic)
  {
    hide PropertiesOk, ModesOk, Exclusive, OutputCovered, MonitorsOk, Following, UserClaims;
    ExclusiveIff(s.randr, automatic);
    ExclusiveIff(s'.randr, automatic);
    if Enabled(s.randr) {
      CoveredIff(s.randr, automatic);
      CoveredIff(s'.randr, automatic);
    }
  }

  /** SetMonitor keeps user and automatic monitors apart, and leaves the lit
      output covered when it was. */
  lemma SetMonitorKeepsApart(s: Screen, world: World, window: Word32, m: MonitorRequest, automatic: AtomId)
    requires Inv(s, automatic) && ValidWorld(world) && world.automatic == automatic
    ensures KeepsApart(s, SetMonitorStep(s, world, window, m).0, automatic)
  {
    SetMonitorStepKeeps(s, world, automatic, window, m);
    var s', r := SetMonitorStep(s, world, window, m).0, s.randr;
    hide PropertiesOk, ModesOk, Exclusive, OutputCovered, WithMonitor, MonitorsOk, Following, FollowedAll, UserClaims;
    if s' != s {
      NewMonitorClaims(r, m, automatic);
      CommitKeepsClaims(r.(monitors := WithMonitor(r.monitors, Requested(m)),
                           primaryOutput := if m.primary != 0 && m.outputs != [] then m.outputs[0]
                             else r.primaryOutput),
                        s.width, s.height, automatic);
    }
    ApartFromClaims(s, s', automatic);
  }

  /** So does DeleteMonitor, which puts the automatic monitor back when needed. */
  lemma DeleteMonitorKeepsApart(s: Screen, world: World, window: Word32, name: AtomId, automatic: AtomId)
    requires Inv(s, automatic) && ValidWorld(world) && world.automatic == automatic
    ensures KeepsApart(s, DeleteMonitorStep(s, world, window, name).0, automatic)
  {
    DeleteMonitorStepKeeps(s, world, automatic, window, name);
    var s', r := DeleteMonitorStep(s, world, window, name).0, s.randr;
    assert r.currentMode != 0 <==> Enabled(r);
    hide PropertiesOk, ModesOk, Exclusive, OutputCovered, WithoutMonitor, MonitorsOk, Following, FollowedAll,
         UserClaims;
    if s' != s {
      NotAutomatic(r, name, automatic);
      LessMonitorClaims(r, name, automatic);
      ClaimsShrink(r.monitors, name);
      CommitKeepsClaims(r.(monitors := WithoutMonitor(r, name, automatic)), s.width, s.height, automatic);
    }
    ApartFromClaims(s, s', automatic);
  }

  lemma MonitorStepKeepsApart(s: Screen, world: World, request: Request, automatic: AtomId)
    requires Inv(s, automatic) && ValidWorld(world) && world.automatic == automatic
    requires request.ReqSetMonitor? || request.ReqDeleteMonitor?
    ensures KeepsApart(s, Step(s, world, request).0, automatic)
  {
    hide KeepsApart, Inv, ValidWorld, SetMonitorStep, DeleteMonitorStep;
    match request
    case ReqSetMonitor(window, m) => SetMonitorKeepsApart(s, world, window, m, automatic);
    case ReqDeleteMonitor(window, name) => DeleteMonitorKeepsApart(s, world, window, name, automatic);
  }

  lemma NotAutomatic(r: Randr, name: AtomId, automatic: AtomId)
    requires MonitorsOk(r, automatic) && name in r.monitors && !r.monitors[name].automatic
    ensures name != automatic
  {
  }

  lemma ClaimsShrink(monitors: Monitors, name: AtomId)
    ensures UserClaims(monitors - {name}) ==> UserClaims(monitors)
  {
  }

  predicate MonitorLog(log: Log) {
    forall k :: 0 <= k < |log| ==> log[k].1.ReqSetMonitor? || log[k].1.ReqDeleteMonitor?
  }

  /** Along any run of SetMonitor and DeleteMonitor from the initial state, no
      automatic monitor shares an output with a user monitor, the lit output
      always has a monitor, and the list stays within its limit. */
  lemma {:induction false} MonitorRuns(width: Word16, height: Word16, automatic: AtomId, log: Log)
    requires 0 < width && 0 < height && ValidLog(log, automatic) && MonitorLog(log)
    ensures var s := StateAfter(width, height, automatic, log);
            && Exclusive(s.randr.monitors) && Enabled(s.randr) && OutputCovered(s.randr.monitors)
            && |s.randr.monitors| <= MAXIMUM_MONITORS
    decreases |log|
  {
    if log == [] {
      InitiallyApart(width, height, automatic);
    } else {
      hide PropertiesOk, ModesOk, MonitorsOk, Exclusive, OutputCovered, Following, Step, ValidWorld, InitialScreen,
           Enabled;
      var n := |log| - 1;
      MonitorRuns(width, height, automatic, log[..n]);
      MonitorStepKeepsApart(StateAfter(width, height, automatic, log[..n]), log[n].0, log[n].1, automatic);
    }
  }

  lemma InitiallyApart(width: Word16, height: Word16, automatic: AtomId)
    requires 0 < width && 0 < height
    ensures var s := InitialScreen(width, height, automatic);
            && Inv(s, automatic) && Exclusive(s.randr.monitors) && Enabled(s.randr) && OutputCovered(s.randr.monitors)
  {
    InitiallyOk(width, height, automatic);
    hide DecimalDigits, PropertiesOk, ModesOk, MonitorsOk;
    var s := InitialScreen(width, height, automatic);
    assert automatic in s.randr.monitors && s.randr.monitors.Keys == {automatic};
    ExclusiveIff(s.randr, automatic);
    CoveredIff(s.randr, automatic);
  }

  // ---- With SetCrtcConfig in the run

  /** Turning the CRTC on (or moving it) keeps the monitors apart exactly when
      the automatic monitor and a claiming user monitor do not both exist, and
      lights a covered output exactly when one of them exists. Both conditions
      can be read off the state before the request. */
  lemma LightingIff(s: Screen, world: World, crtc: Word32, configTimestamp: Word32, x: Word16, y: Word16, id: Word32,
                    rotation: Word16, outputs: seq<Word32>, automatic: AtomId)
    requires Inv(s, automatic) && ValidWorld(world) && world.automatic == automatic && id != 0
    requires SetCrtcConfigStep(s, world, crtc, configTimestamp, x, y, id, rotation, outputs).1 == Replied(Status(0))
    ensures var s' := SetCrtcConfigStep(s, world, crtc, configTimestamp, x, y, id, rotation, outputs).0;
            && Enabled(s'.randr)
            && (Exclusive(s'.randr.monitors) <==> !(automatic in s.randr.monitors && UserClaims(s.randr.monitors)))
            && (OutputCovered(s'.randr.monitors) <==> automatic in s.randr.monitors || UserClaims(s.randr.monitors))
  {
    SetCrtcConfigKeeps(s, world, automatic, crtc, configTimestamp, x, y, id, rotation, outputs);
    var s' := SetCrtcConfigStep(s, world, crtc, configTimestamp, x, y, id, rotation, outputs).0;
    hide PropertiesOk, ModesOk, Exclusive, OutputCovered, MonitorsOk, Following, FollowedAll, UserClaims;
    CommitKeepsClaims(WithCrtc(s.randr, x, y, id, rotation), s.width, s.height, automatic);
    ExclusiveIff(s'.randr, automatic);
    CoveredIff(s'.randr, automatic);
  }

  function UserMonitor(name: AtomId): MonitorRequest {
    MonitorRequest(name, 0, 0, 1, 0, 0, 10, 10, 1, 1, [OUTPUT_ID])
  }

  /** The screen still has its initial mode, listed and fitting. */
  predicate HasInitialMode(s: Screen) {
    && INITIAL_MODE_ID in s.randr.modes && INITIAL_MODE_ID in s.randr.outputModes
    && s.randr.modes[INITIAL_MODE_ID].width <= s.width && s.randr.modes[INITIAL_MODE_ID].height <= s.height
  }

  lemma InitialMonitors(width: Word16, height: Word16, automatic: AtomId)
    requires 0 < width && 0 < height
    ensures var s := InitialScreen(width, height, automatic);
            HasInitialMode(s) && s.randr.monitors.Keys == {automatic} && Enabled(s.randr)
  {
    hide DecimalDigits;
  }

  /** Turning the CRTC off or on keeps the same monitors. */
  lemma SwitchKeepsNames(s: Screen, world: World, id: Word32)
    requires HasInitialMode(s) && world.room && (id == 0 || id == INITIAL_MODE_ID)
    ensures var (s', response) :=
      SetCrtcConfigStep(s, world, CRTC_ID, 0, 0, 0, id, 1, if id == 0 then [] else [OUTPUT_ID]);
            && response == Replied(Status(0)) && HasInitialMode(s') && s'.randr.currentMode == id
            && s'.randr.modes == s.randr.modes
            && s'.randr.monitors.Keys == s.randr.monitors.Keys
            && (UserClaims(s'.randr.monitors) <==> UserClaims(s.randr.monitors))
  {
    hide UserClaims;
    CommitKeepsClaims(WithCrtc(s.randr, 0, 0, id, 1), s.width, s.height, 0);
  }

  /** Adding a user monitor on the output while the automatic one is the only other. */
  lemma AddKeepsNames(s: Screen, world: World, window: Word32, name: AtomId, automatic: AtomId)
    requires Inv(s, automatic) && HasInitialMode(s) && s.randr.monitors.Keys == {automatic}
    requires ValidWorld(world) && world.room && window in world.windows && name in world.atoms
    requires name != automatic && automatic == world.automatic
    ensures var s' := SetMonitorStep(s, world, window, UserMonitor(name)).0;
            && HasInitialMode(s') && s'.randr.modes == s.randr.modes && s'.randr.currentMode == s.randr.currentMode
            && UserClaims(s'.randr.monitors) && name in s'.randr.monitors
            && s'.randr.monitors.Keys == if Enabled(s.randr) then {name} else {automatic, name}
  {
    var r, m := s.randr, UserMonitor(name);
    var candidate := r.(monitors := WithMonitor(r.monitors, Requested(m)));
    AddIsCommitted(s, world, window, name, automatic);
    NewMonitorClaims(r, m, automatic);
    assert candidate.monitors.Keys <= {automatic, name} && name in candidate.monitors;
    hide PropertiesOk, ModesOk, MonitorsOk, Following, UserClaims, WithMonitor, Enabled, HasInitialMode, FollowedAll,
         SetMonitorStep, Stamped;
    CommitKeepsClaims(candidate, s.width, s.height, automatic);
    FollowedNames(candidate, s.width, s.height);
    StampsNothing(candidate, s.width, s.height, world.now);
    InitialModeStays(s, SetMonitorStep(s, world, window, m).0);
  }

  /** Such a request passes every check and is committed. */
  lemma AddIsCommitted(s: Screen, world: World, window: Word32, name: AtomId, automatic: AtomId)
    requires s.randr.monitors.Keys == {automatic} && name != automatic && automatic == world.automatic
    requires ValidWorld(world) && world.room && window in world.windows && name in world.atoms
    ensures SetMonitorStep(s, world, window, UserMonitor(name)).0 ==
            s.(randr := Stamped(FollowedAll(s.randr.(monitors :=
              WithMonitor(s.randr.monitors, Requested(UserMonitor(name)))), s.width, s.height),
                                Configuration, world.now))
  {
    assert |s.randr.monitors.Keys| == |s.randr.monitors|;
    hide FollowedAll, Stamped, WithMonitor;
  }

  lemma StampsNothing(r: Randr, width: Word16, height: Word16, now: Word32)
    ensures var r' := Stamped(FollowedAll(r, width, height), Configuration, now);
            && r'.modes == r.modes && r'.outputModes == r.outputModes && r'.currentMode == r.currentMode
            && r'.monitors == FollowedAll(r, width, height).monitors
  {
  }

  lemma FollowedNames(r: Randr, width: Word16, height: Word16)
    ensures FollowedAll(r, width, height).monitors.Keys == r.monitors.Keys
  {
  }

  lemma InitialModeStays(s: Screen, s': Screen)
    requires HasInitialMode(s) && s'.width == s.width && s'.height == s.height
    requires s'.randr.modes == s.randr.modes && s'.randr.outputModes == s.randr.outputModes
    ensures HasInitialMode(s')
  {
  }

  /** Turn the CRTC off, add a user monitor on the output, turn the CRTC on
      again: the automatic monitor now shares the output with the user's. */
  lemma RelightingShares(width: Word16, height: Word16, world: World, window: Word32, name: AtomId)
    requires 0 < width && 0 < height && ValidWorld(world) && world.room && window in world.windows
    requires name in world.atoms && name != world.automatic
    ensures var s1 := SetCrtcConfigStep(InitialScreen(width, height, world.automatic), world, CRTC_ID, 0, 0, 0, 0, 1,
                                        []).0;
            var s2 := SetMonitorStep(s1, world, window, UserMonitor(name)).0;
            var s3 := SetCrtcConfigStep(s2, world, CRTC_ID, 0, 0, 0, INITIAL_MODE_ID, 1, [OUTPUT_ID]).0;
            !Exclusive(s3.randr.monitors)
  {
    hide InitialRandr, SetCrtcConfigStep, SetMonitorStep, PropertiesOk, ModesOk, MonitorsOk, HasInitialMode,
         UserClaims, Exclusive;
    var automatic := world.automatic;
    var s0 := InitialScreen(width, height, automatic);
    InitiallyOk(width, height, automatic);
    InitialMonitors(width, height, automatic);
    SwitchKeepsNames(s0, world, 0);
    SetCrtcConfigKeeps(s0, world, automatic, CRTC_ID, 0, 0, 0, 0, 1, []);
    var s1 := SetCrtcConfigStep(s0, world, CRTC_ID, 0, 0, 0, 0, 1, []).0;
    OffIsDisabled(s1, automatic);
    AddKeepsNames(s1, world, window, name, automatic);
    SetMonitorStepKeeps(s1, world, automatic, window, UserMonitor(name));
    var s2 := SetMonitorStep(s1, world, window, UserMonitor(name)).0;
    SwitchKeepsNames(s2, world, INITIAL_MODE_ID);
    LightingIff(s2, world, CRTC_ID, 0, 0, 0, INITIAL_MODE_ID, 1, [OUTPUT_ID], automatic);
  }

  lemma OffIsDisabled(s: Screen, automatic: AtomId)
    requires Inv(s, automatic) && s.randr.currentMode == 0
    ensures !Enabled(s.randr)
  {
  }

  /** Deleting the last monitor while the CRTC is off leaves none. */
  lemma DeleteLast(s: Screen, world: World, window: Word32, name: AtomId, automatic: AtomId)
    requires Inv(s, automatic) && HasInitialMode(s) && s.randr.monitors.Keys == {name} && s.randr.currentMode == 0
    requires world.room && window in world.windows && name in world.atoms && name != automatic
    ensures var s' := DeleteMonitorStep(s, world, window, name).0;
            HasInitialMode(s') && s'.randr.monitors == map[]
  {
    hide PropertiesOk, ModesOk;
    assert s.randr.monitors - {name} == map[];
  }

  /** Add a user monitor on the output, turn the CRTC off, delete that monitor,
      turn the CRTC on again: the lit output has no monitor. */
  lemma RelightingUncovers(width: Word16, height: Word16, world: World, window: Word32, name: AtomId)
    requires 0 < width && 0 < height && ValidWorld(world) && world.room && window in world.windows
    requires name in world.atoms && name != world.automatic
    ensures var s0 := InitialScreen(width, height, world.automatic);
            var s1 := SetMonitorStep(s0, world, window, UserMonitor(name)).0;
            var s2 := SetCrtcConfigStep(s1, world, CRTC_ID, 0, 0, 0, 0, 1, []).0;
            var s3 := DeleteMonitorStep(s2, world, window, name).0;
            var s4 := SetCrtcConfigStep(s3, world, CRTC_ID, 0, 0, 0, INITIAL_MODE_ID, 1, [OUTPUT_ID]).0;
            Enabled(s4.randr) && !OutputCovered(s4.randr.monitors)
  {
    hide InitialRandr, SetCrtcConfigStep, SetMonitorStep, DeleteMonitorStep, PropertiesOk, ModesOk, MonitorsOk;
    hide HasInitialMode, UserClaims, OutputCovered;
    var automatic := world.automatic;
    var s0 := InitialScreen(width, height, automatic);
    InitiallyOk(width, height, automatic);
    InitialMonitors(width, height, automatic);
    AddKeepsNames(s0, world, window, name, automatic);
    SetMonitorStepKeeps(s0, world, automatic, window, UserMonitor(name));
    var s1 := SetMonitorStep(s0, world, window, UserMonitor(name)).0;
    SwitchKeepsNames(s1, world, 0);
    SetCrtcConfigKeeps(s1, world, automatic, CRTC_ID, 0, 0, 0, 0, 1, []);
    var s2 := SetCrtcConfigStep(s1, world, CRTC_ID, 0, 0, 0, 0, 1, []).0;
    DeleteLast(s2, world, window, name, automatic);
    DeleteMonitorStepKeeps(s2, world, automatic, window, name);
    var s3 := DeleteMonitorStep(s2, world, window, name).0;
    NoClaims(s3.randr.monitors);
    SwitchKeepsNames(s3, world, INITIAL_MODE_ID);
    LightingIff(s3, world, CRTC_ID, 0, 0, 0, INITIAL_MODE_ID, 1, [OUTPUT_ID], automatic);
  }

  lemma NoClaims(monitors: Monitors)
    requires monitors == map[]
    ensures !UserClaims(monitors)
  {
  }
}
