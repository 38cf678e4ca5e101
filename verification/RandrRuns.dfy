/** Whole runs of RANDR requests from the server's initial state. */
module RandrRuns {
  import opened Wire
  import opened CyclicIds
  import opened Maps
  import opened PropertyData
  import opened RandrState
  import opened RandrModes
  import opened RandrProperties
  import opened RandrPropertyLaws
  import opened RandrMonitors
  import opened RandrSettings
  import opened RandrRequests

  // ---- Commits

  lemma FollowedMonitors(r: Randr, width: Word16, height: Word16, automatic: AtomId)
    requires MonitorsOk(r, automatic)
    ensures MonitorsOk(FollowedAll(r, width, height), automatic) && Following(FollowedAll(r, width, height), automatic)
  {
    var r' := FollowedAll(r, width, height);
    assert r'.monitors.Keys == r.monitors.Keys;
    assert |r'.monitors.Keys| == |r'.monitors| && |r.monitors.Keys| == |r.monitors|;
  }

  lemma FollowingKeeps(r: Randr, width: Word16, height: Word16, automatic: AtomId, notify: Notify, now: Word32)
    requires CandidateOk(r, width, height, automatic)
    ensures var r' := Stamped(FollowedAll(r, width, height), notify, now);
            CandidateOk(r', width, height, automatic) && Following(r', automatic)
  {
    hide TotalBytes, PropertyOk, Followed;
    FollowedMonitors(r, width, height, automatic);
    var followed := FollowedAll(r, width, height);
    assert PropertiesOk(followed) && RampsOk(followed) && ModesOk(followed, width, height);
    hide MonitorsOk, FollowedAll;
    SameMonitors(followed, Stamped(followed, notify, now), automatic);
  }

  /** Any commit of a well-formed candidate keeps the invariant. */
  lemma CommitKeeps(s: Screen, candidate: Randr, notify: Notify, world: World, automatic: AtomId)
    requires Inv(s, automatic) && CandidateOk(candidate, s.width, s.height, automatic)
    ensures Inv(Committed(s, candidate, notify, world).0, automatic)
  {
    hide CandidateOk, Following, FollowedAll, Stamped;
    FollowingKeeps(candidate, s.width, s.height, automatic, notify, world.now);
  }

  // ---- Modes

  lemma NewModeKeeps(r: Randr, screenWidth: Word16, screenHeight: Word16, width: Word16, height: Word16,
                     timing: ModeTiming, name: string)
    requires ModesOk(r, screenWidth, screenHeight) && |r.modes| < MAXIMUM_MODES
    requires 0 < width && 0 < height && !NameTaken(r.modes, name)
    ensures ModesOk(WithNewMode(r, width, height, timing, name), screenWidth, screenHeight)
  {
    var id := FreshId(r.modes.Keys, r.nextModeId);
    hide FreshId;
    var mode := ModeInfo(id, width, height, timing, name, false);
    NewModeFits(r.modes, id, mode);
    hide TableOk, NameTaken, Distinct;
    var modes := r.modes[id := mode];
    assert forall k :: k in r.modes ==> k in modes && modes[k] == r.modes[k];
  }

  lemma NewModeFits(modes: map<Word32, ModeInfo>, id: Word32, mode: ModeInfo)
    requires TableOk(modes) && |modes| < MAXIMUM_MODES && !NameTaken(modes, mode.name)
    requires id != 0 && id !in modes && mode.id == id && 0 < mode.width && 0 < mode.height
    ensures TableOk(modes[id := mode])
  {
    MapAdd(modes, id, mode);
    NewNameIsUnique(modes, id, mode);
    hide UniqueNames, NameTaken;
  }

  lemma NewNameIsUnique(modes: map<Word32, ModeInfo>, id: Word32, mode: ModeInfo)
    requires UniqueNames(modes) && !NameTaken(modes, mode.name) && id !in modes
    ensures UniqueNames(modes[id := mode])
  {
  }

  lemma DestroyKeeps(r: Randr, screenWidth: Word16, screenHeight: Word16, id: Word32)
    requires ModesOk(r, screenWidth, screenHeight) && id in r.modes
    requires r.currentMode != id && id !in r.outputModes
    ensures ModesOk(r.(modes := r.modes - {id}), screenWidth, screenHeight)
  {
    var modes := r.modes - {id};
    assert modes.Keys == r.modes.Keys - {id};
    assert |modes.Keys| == |modes| && |r.modes.Keys| == |r.modes|;
  }

  lemma {:induction false} RemoveFirstKeeps(ids: seq<Word32>, id: Word32)
    requires Distinct(ids)
    ensures Distinct(RemoveFirst(ids, id))
    ensures forall x :: x in RemoveFirst(ids, id) <==> x in ids && x != id
  {
    if ids != [] {
      assert ids == [ids[0]] + ids[1..];
      assert ids[0] !in ids[1..];
      if ids[0] != id {
        RemoveFirstKeeps(ids[1..], id);
      }
    }
  }

  lemma ResizeKeeps(s: Screen, width: Word16, height: Word16)
    requires ModesOk(s.randr, s.width, s.height) && !CrtcExceeds(s.randr, width, height)
    ensures ModesOk(s.randr, width, height)
  {
  }

  // ---- Monitors

  lemma SetMonitorKeeps(r: Randr, m: MonitorRequest, automatic: AtomId)
    requires MonitorsOk(r, automatic) && m.name !in r.monitors && m.name != automatic
    requires |r.monitors| < MAXIMUM_MONITORS && OutputsError(m.outputs) == Done
    ensures MonitorsOk(r.(monitors := WithMonitor(r.monitors, Requested(m))), automatic)
  {
    var monitors := WithMonitor(r.monitors, Requested(m));
    assert monitors.Keys <= r.monitors.Keys + {m.name};
    SubsetSize(monitors.Keys, r.monitors.Keys + {m.name});
    assert |r.monitors.Keys + {m.name}| == |r.monitors| + 1;
    assert |monitors.Keys| == |monitors|;
    assert m.outputs == [] || m.outputs == [OUTPUT_ID];
  }

  lemma DeleteMonitorKeeps(r: Randr, name: AtomId, automatic: AtomId)
    requires MonitorsOk(r, automatic) && name in r.monitors
    ensures MonitorsOk(r.(monitors := WithoutMonitor(r, name, automatic)), automatic)
  {
    var rest := r.monitors - {name};
    assert rest.Keys == r.monitors.Keys - {name};
    assert |rest.Keys| == |rest| && |r.monitors.Keys| == |r.monitors|;
    var monitors := WithoutMonitor(r, name, automatic);
    assert monitors.Keys <= rest.Keys + {automatic};
    assert |monitors| <= |rest| + 1;
  }

  lemma MarkedKeeps(r: Randr, output: Word32, automatic: AtomId)
    requires MonitorsOk(r, automatic)
    ensures MonitorsOk(r.(monitors := MarkedPrimary(r.monitors, output)), automatic)
  {
    var monitors := MarkedPrimary(r.monitors, output);
    assert monitors.Keys == r.monitors.Keys;
    assert |monitors.Keys| == |monitors| && |r.monitors.Keys| == |r.monitors|;
  }

  // ---- One step, request by request

  /** Fields outside monitors, properties and ramps do not affect their invariants. */
  lemma ModesDiffer(r: Randr, candidate: Randr, width: Word16, height: Word16, automatic: AtomId)
    requires CandidateOk(r, width, height, automatic) && ModesOk(candidate, width, height)
    requires candidate.monitors == r.monitors && candidate.outputProperties == r.outputProperties
    requires candidate.gammaRed == r.gammaRed && candidate.gammaGreen == r.gammaGreen &&
             candidate.gammaBlue == r.gammaBlue
    ensures CandidateOk(candidate, width, height, automatic)
  {
    hide TotalBytes, PropertyOk, ModesOk;
  }

  lemma SameMonitors(r: Randr, candidate: Randr, automatic: AtomId)
    requires MonitorsOk(r, automatic) && candidate.monitors == r.monitors
    ensures MonitorsOk(candidate, automatic)
  {
  }

  lemma MonitorsDiffer(r: Randr, candidate: Randr, width: Word16, height: Word16, automatic: AtomId)
    requires CandidateOk(r, width, height, automatic) && MonitorsOk(candidate, automatic)
    requires candidate == r.(monitors := candidate.monitors, primaryOutput := candidate.primaryOutput)
    ensures CandidateOk(candidate, width, height, automatic)
  {
    hide TotalBytes, PropertyOk, MonitorsOk;
  }

  lemma PropertiesDiffer(r: Randr, candidate: Randr, width: Word16, height: Word16, automatic: AtomId)
    requires CandidateOk(r, width, height, automatic) && PropertiesOk(candidate)
    requires candidate == r.(outputProperties := candidate.outputProperties)
    ensures CandidateOk(candidate, width, height, automatic)
  {
    hide PropertiesOk;
  }

  lemma OthersDiffer(r: Randr, candidate: Randr, width: Word16, height: Word16, automatic: AtomId)
    requires CandidateOk(r, width, height, automatic) && RampsOk(candidate)
    requires candidate ==
             r.(gammaRed := candidate.gammaRed, gammaGreen := candidate.gammaGreen, gammaBlue := candidate.gammaBlue,
                             transform := candidate.transform, panning := candidate.panning,
                             subscriptions := candidate.subscriptions)
    ensures CandidateOk(candidate, width, height, automatic)
  {
    hide TotalBytes, PropertyOk;
  }

  lemma CreateModeKeeps(s: Screen, world: World, automatic: AtomId, window: Word32, width: Word16, height: Word16,
                        timing: ModeTiming, name: string)
    requires Inv(s, automatic)
    ensures Inv(CreateModeStep(s, world, window, width, height, timing, name).0, automatic)
  {
    hide Committed, ModesOk, MonitorsOk, PropertiesOk, RampsOk, NameTaken;
    var r := s.randr;
    if width != 0 && height != 0 && |r.modes| < MAXIMUM_MODES && !NameTaken(r.modes, name) {
      NewModeKeeps(r, s.width, s.height, width, height, timing, name);
      var candidate := WithNewMode(r, width, height, timing, name);
      ModesDiffer(r, candidate, s.width, s.height, automatic);
      CommitKeeps(s, candidate, Configuration, world, automatic);
    }
  }

  lemma DestroyModeKeeps(s: Screen, world: World, automatic: AtomId, id: Word32)
    requires Inv(s, automatic)
    ensures Inv(DestroyModeStep(s, world, id).0, automatic)
  {
    hide Committed, ModesOk, MonitorsOk, PropertiesOk, RampsOk;
    var r := s.randr;
    if id in r.modes && r.currentMode != id && id !in r.outputModes {
      DestroyKeeps(r, s.width, s.height, id);
      ModesDiffer(r, r.(modes := r.modes - {id}), s.width, s.height, automatic);
      CommitKeeps(s, r.(modes := r.modes - {id}), Configuration, world, automatic);
    }
  }

  lemma AddedKeeps(r: Randr, width: Word16, height: Word16, id: Word32)
    requires ModesOk(r, width, height) && id in r.modes && id !in r.outputModes
    ensures ModesOk(r.(outputModes := r.outputModes + [id]), width, height)
  {
  }

  lemma RemovedKeeps(r: Randr, width: Word16, height: Word16, id: Word32)
    requires ModesOk(r, width, height) && r.currentMode != id
    ensures ModesOk(r.(outputModes := RemoveFirst(r.outputModes, id)), width, height)
  {
    RemoveFirstKeeps(r.outputModes, id);
    hide RemoveFirst, Distinct;
  }

  lemma AddOutputModeKeeps(s: Screen, world: World, automatic: AtomId, output: Word32, id: Word32)
    requires Inv(s, automatic)
    ensures Inv(AddOutputModeStep(s, world, output, id).0, automatic)
  {
    hide Committed, ModesOk, MonitorsOk, PropertiesOk, RampsOk;
    var r := s.randr;
    CommitKeeps(s, r, Configuration, world, automatic);
    if id in r.modes && id !in r.outputModes {
      AddedKeeps(r, s.width, s.height, id);
      var candidate := r.(outputModes := r.outputModes + [id]);
      ModesDiffer(r, candidate, s.width, s.height, automatic);
      CommitKeeps(s, candidate, Configuration, world, automatic);
    }
  }

  lemma DeleteOutputModeKeeps(s: Screen, world: World, automatic: AtomId, output: Word32, id: Word32)
    requires Inv(s, automatic)
    ensures Inv(DeleteOutputModeStep(s, world, output, id).0, automatic)
  {
    hide Committed, ModesOk, MonitorsOk, PropertiesOk, RampsOk;
    var r := s.randr;
    if r.currentMode != id {
      RemovedKeeps(r, s.width, s.height, id);
      var candidate := r.(outputModes := RemoveFirst(r.outputModes, id));
      ModesDiffer(r, candidate, s.width, s.height, automatic);
      CommitKeeps(s, candidate, Configuration, world, automatic);
    }
  }

  function WithCrtc(r: Randr, x: Word16, y: Word16, id: Word32, rotation: Word16): Randr {
    r.(currentMode := id, crtcX := if id == 0 then 0 else SignedWord(x),
       crtcY := if id == 0 then 0 else SignedWord(y), rotation := rotation)
  }

  lemma ShownKeeps(s: Screen, x: Word16, y: Word16, id: Word32, rotation: Word16, outputs: seq<Word32>)
    requires ModesOk(s.randr, s.width, s.height) && CrtcError(s, x, y, id, rotation, outputs) == Done
    ensures ModesOk(WithCrtc(s.randr, x, y, id, rotation), s.width, s.height)
  {
    hide UniqueNames, Distinct;
  }

  lemma SetCrtcConfigKeeps(s: Screen, world: World, automatic: AtomId, crtc: Word32, configTimestamp: Word32, x: Word16,
                           y: Word16, id: Word32, rotation: Word16, outputs: seq<Word32>)
    requires Inv(s, automatic)
    ensures Inv(SetCrtcConfigStep(s, world, crtc, configTimestamp, x, y, id, rotation, outputs).0, automatic)
  {
    hide Committed, ModesOk, MonitorsOk, PropertiesOk, RampsOk, CrtcError;
    if CrtcError(s, x, y, id, rotation, outputs) == Done {
      ShownKeeps(s, x, y, id, rotation, outputs);
      var candidate := WithCrtc(s.randr, x, y, id, rotation);
      ModesDiffer(s.randr, candidate, s.width, s.height, automatic);
      CommitKeeps(s, candidate, Configuration, world, automatic);
    }
  }

  lemma SameModes(r: Randr, candidate: Randr, width: Word16, height: Word16)
    requires ModesOk(r, width, height)
    requires candidate.modes == r.modes && candidate.outputModes == r.outputModes &&
             candidate.currentMode == r.currentMode
    requires candidate.crtcX == r.crtcX && candidate.crtcY == r.crtcY
    ensures ModesOk(candidate, width, height)
  {
  }

  lemma SetScreenSizeKeeps(s: Screen, world: World, automatic: AtomId, window: Word32, width: Word16, height: Word16,
                           millimetreWidth: Word32, millimetreHeight: Word32)
    requires Inv(s, automatic)
    ensures Inv(SetScreenSizeStep(s, world, window, width, height, millimetreWidth, millimetreHeight).0, automatic)
  {
    hide CrtcExceeds, ModesOk, MonitorsOk, PropertiesOk, RampsOk, FollowedAll, Stamped;
    var r := s.randr;
    if !CrtcExceeds(r, width, height) {
      ResizeKeeps(s, width, height);
      var candidate := r.(millimetreWidth := millimetreWidth, millimetreHeight := millimetreHeight);
      SameModes(r, candidate, width, height);
      SameModes(r, candidate, s.width, s.height);
      ModesDiffer(r, candidate, s.width, s.height, automatic);
      FollowingKeeps(candidate, width, height, automatic, Configuration, world.now);
    }
  }

  lemma SetScreenConfigKeeps(s: Screen, world: World, automatic: AtomId, window: Word32, timestamp: Word32,
                             configTimestamp: Word32, size: Word16, rotation: Word16, rate: Word16)
    requires Inv(s, automatic)
    ensures Inv(SetScreenConfigStep(s, world, window, timestamp, configTimestamp, size, rotation, rate).0, automatic)
  {
    hide Committed, ModesOk, MonitorsOk, PropertiesOk, RampsOk;
    var candidate := s.randr.(rotation := rotation);
    SameModes(s.randr, candidate, s.width, s.height);
    ModesDiffer(s.randr, candidate, s.width, s.height, automatic);
    CommitKeeps(s, candidate, Configuration, world, automatic);
  }

  lemma SetMonitorStepKeeps(s: Screen, world: World, automatic: AtomId, window: Word32, m: MonitorRequest)
    requires Inv(s, automatic) && ValidWorld(world) && world.automatic == automatic
    ensures Inv(SetMonitorStep(s, world, window, m).0, automatic)
  {
    hide Committed, ModesOk, PropertiesOk, RampsOk, MonitorsOk, WithMonitor;
    var r := s.randr;
    if m.name in world.atoms && world.atoms[m.name] != AUTOMATIC_NAME && m.name !in r.monitors &&
       |r.monitors| < MAXIMUM_MONITORS && OutputsError(m.outputs) == Done
    {
      var candidate := r.(monitors := WithMonitor(r.monitors, Requested(m)),
                          primaryOutput := if m.primary != 0 && m.outputs != [] then m.outputs[0] else r.primaryOutput);
      SetMonitorKeeps(r, m, automatic);
      SameMonitors(r.(monitors := WithMonitor(r.monitors, Requested(m))), candidate, automatic);
      MonitorsDiffer(r, candidate, s.width, s.height, automatic);
      CommitKeeps(s, candidate, Configuration, world, automatic);
    }
  }

  lemma DeleteMonitorStepKeeps(s: Screen, world: World, automatic: AtomId, window: Word32, name: AtomId)
    requires Inv(s, automatic) && world.automatic == automatic
    ensures Inv(DeleteMonitorStep(s, world, window, name).0, automatic)
  {
    hide Committed, ModesOk, PropertiesOk, RampsOk, MonitorsOk, WithoutMonitor;
    var r := s.randr;
    if name in r.monitors {
      var candidate := r.(monitors := WithoutMonitor(r, name, automatic));
      DeleteMonitorKeeps(r, name, automatic);
      MonitorsDiffer(r, candidate, s.width, s.height, automatic);
      CommitKeeps(s, candidate, Configuration, world, automatic);
    }
  }

  lemma SetOutputPrimaryKeeps(s: Screen, world: World, automatic: AtomId, window: Word32, output: Word32)
    requires Inv(s, automatic)
    ensures Inv(SetOutputPrimaryStep(s, world, window, output).0, automatic)
  {
    hide Committed, ModesOk, PropertiesOk, RampsOk, MonitorsOk, MarkedPrimary;
    var r := s.randr;
    var candidate := r.(primaryOutput := output, monitors := MarkedPrimary(r.monitors, output));
    MarkedKeeps(r, output, automatic);
    SameMonitors(r.(monitors := MarkedPrimary(r.monitors, output)), candidate, automatic);
    MonitorsDiffer(r, candidate, s.width, s.height, automatic);
    CommitKeeps(s, candidate, Configuration, world, automatic);
  }

  lemma PropertyTableKeeps(s: Screen, candidate: Randr, notify: Notify, world: World, automatic: AtomId)
    requires Inv(s, automatic) && PropertiesOk(candidate)
    requires candidate == s.randr.(outputProperties := candidate.outputProperties)
    ensures Inv(Committed(s, candidate, notify, world).0, automatic)
  {
    hide Committed, PropertiesOk;
    PropertiesDiffer(s.randr, candidate, s.width, s.height, automatic);
    CommitKeeps(s, candidate, notify, world, automatic);
  }

  lemma ConfigureKeeps(s: Screen, world: World, automatic: AtomId, output: Word32, property: AtomId,
                       pending: Byte, range: Byte, values: seq<int>)
    requires Inv(s, automatic)
    ensures Inv(ConfigureStep(s, world, output, property, pending, range, values).0, automatic)
  {
    hide Committed, PropertiesOk, ModesOk, MonitorsOk, TableFull;
    if !TableFull(s.randr, property) {
      ConfiguredOk(s.randr, property, pending, range, values);
      PropertyTableKeeps(s, s.randr.(outputProperties :=
        s.randr.outputProperties[property := Configured(Current(s.randr, property), pending, range, values)]),
        Silent, world, automatic);
    }
  }

  lemma ChangeKeeps(s: Screen, world: World, automatic: AtomId, output: Word32, property: AtomId, typ: AtomId,
                    format: Byte, mode: Byte, units: Word32, data: seq<Byte>, order: ByteOrder)
    requires Inv(s, automatic)
    ensures Inv(ChangeStep(s, world, output, property, typ, format, mode, units, data, order).0, automatic)
  {
    hide Committed, PropertiesOk, ModesOk, MonitorsOk, TableFull, FitsAfter, ChangedTable, Swapped, Whole, DataSize;
    if ValidFormat(format) && |data| == DataSize(units, format) {
      var r, canonical := s.randr, Swapped(data, Unit(format), order);
      UnitsAreWhole(units, format);
      if !TableFull(r, property) && !Mismatched(Target(Current(r, property)), mode, typ, format) &&
         FitsAfter(r, property, typ, format, mode, canonical)
      {
        ChangedOk(r, property, typ, format, mode, canonical);
        PropertyTableKeeps(s, r.(outputProperties := ChangedTable(r, property, typ, format, mode, canonical)),
                           PropertyChange, world, automatic);
      }
    }
  }

  lemma DeletePropertyKeeps(s: Screen, world: World, automatic: AtomId, output: Word32, property: AtomId)
    requires Inv(s, automatic)
    ensures Inv(DeleteStep(s, world, output, property).0, automatic)
  {
    hide Committed, PropertiesOk, ModesOk, MonitorsOk;
    if property in s.randr.outputProperties {
      EraseKeepsProperties(s.randr, property);
      PropertyTableKeeps(s, s.randr.(outputProperties := s.randr.outputProperties - {property}), PropertyChange, world,
                         automatic);
    }
  }

  lemma GetPropertyKeeps(s: Screen, world: World, automatic: AtomId, output: Word32, property: AtomId,
                         requestedType: AtomId,
                         offset: Word32, length: Word32, remove: Byte, pending: Byte, order: ByteOrder)
    requires Inv(s, automatic)
    ensures Inv(GetStep(s, world, output, property, requestedType, offset, length, remove, pending, order).0, automatic)
  {
    if property in s.randr.outputProperties {
      assert PropertyOk(s.randr.outputProperties[property]);
      hide Committed, PropertiesOk, ModesOk, MonitorsOk, PageReply, PropertyOk;
      EraseKeepsProperties(s.randr, property);
      PropertyTableKeeps(s, s.randr.(outputProperties := s.randr.outputProperties - {property}), PropertyChange, world,
                         automatic);
    }
  }

  lemma SettingKeeps(s: Screen, candidate: Randr, notify: Notify, world: World, automatic: AtomId)
    requires Inv(s, automatic) && RampsOk(candidate)
    requires candidate == s.randr.(gammaRed := candidate.gammaRed, gammaGreen := candidate.gammaGreen,
                                   gammaBlue := candidate.gammaBlue, transform := candidate.transform,
                                   panning := candidate.panning)
    ensures Inv(Committed(s, candidate, notify, world).0, automatic)
  {
    hide Committed, PropertiesOk, ModesOk, MonitorsOk;
    OthersDiffer(s.randr, candidate, s.width, s.height, automatic);
    CommitKeeps(s, candidate, notify, world, automatic);
  }

  lemma GammaKeeps(s: Screen, world: World, automatic: AtomId, crtc: Word32, size: Word16, components: seq<Word16>)
    requires Inv(s, automatic)
    ensures Inv(SetGammaStep(s, world, crtc, size, components).0, automatic)
  {
    hide Committed, PropertiesOk, ModesOk, MonitorsOk;
    var n := |s.randr.gammaRed|;
    if |components| == n * 3 {
      SettingKeeps(s, s.randr.(gammaRed := components[..n], gammaGreen := components[n..2 * n],
                                     gammaBlue := components[2 * n..]),
                   Silent, world, automatic);
    }
  }

  lemma SelectInputKeeps(s: Screen, world: World, automatic: AtomId, client: Word32, window: Word32, mask: Word16)
    requires Inv(s, automatic)
    ensures Inv(SelectInputStep(s, world, client, window, mask).0, automatic)
  {
    hide PropertiesOk, ModesOk, MonitorsOk, Subscribed;
    OthersDiffer(s.randr, s.randr.(subscriptions := Subscribed(s.randr.subscriptions, client, window, mask)),
                 s.width, s.height, automatic);
  }

  /** Requests that move modes, the CRTC or monitors. */
  predicate MovesOutput(request: Request) {
    || request.ReqSetScreenConfig? || request.ReqSetScreenSize? || request.ReqCreateMode? || request.ReqDestroyMode?
    || request.ReqAddOutputMode? || request.ReqDeleteOutputMode? || request.ReqSetCrtcConfig?
    || request.ReqSetMonitor? || request.ReqDeleteMonitor? || request.ReqSetOutputPrimary?
  }

  lemma OutputStepKeeps(s: Screen, world: World, request: Request, automatic: AtomId)
    requires Inv(s, automatic) && ValidWorld(world) && world.automatic == automatic && MovesOutput(request)
    ensures Inv(Step(s, world, request).0, automatic)
  {
    hide SetScreenConfigStep, SelectInputStep, SetScreenSizeStep, ConfigureStep, ChangeStep, DeleteStep, GetStep;
    hide CreateModeStep, DestroyModeStep, AddOutputModeStep, DeleteOutputModeStep, SetCrtcConfigStep;
    hide SetGammaStep, SetOutputPrimaryStep, SetMonitorStep, DeleteMonitorStep;
    hide Committed, ModesOk, MonitorsOk, PropertiesOk, Following, ValidWorld;
    match request
    case ReqSetScreenConfig(window, timestamp, configTimestamp, size, rotation, rate) =>
      SetScreenConfigKeeps(s, world, automatic, window, timestamp, configTimestamp, size, rotation, rate);
    case ReqSetScreenSize(window, width, height, millimetreWidth, millimetreHeight) =>
      SetScreenSizeKeeps(s, world, automatic, window, width, height, millimetreWidth, millimetreHeight);
    case ReqCreateMode(window, width, height, timing, name) =>
      CreateModeKeeps(s, world, automatic, window, width, height, timing, name);
    case ReqDestroyMode(id) => DestroyModeKeeps(s, world, automatic, id);
    case ReqAddOutputMode(output, id) => AddOutputModeKeeps(s, world, automatic, output, id);
    case ReqDeleteOutputMode(output, id) => DeleteOutputModeKeeps(s, world, automatic, output, id);
    case ReqSetCrtcConfig(crtc, configTimestamp, x, y, id, rotation, outputs) =>
      SetCrtcConfigKeeps(s, world, automatic, crtc, configTimestamp, x, y, id, rotation, outputs);
    case ReqSetOutputPrimary(window, output) => SetOutputPrimaryKeeps(s, world, automatic, window, output);
    case ReqSetMonitor(window, monitor) => SetMonitorStepKeeps(s, world, automatic, window, monitor);
    case ReqDeleteMonitor(window, name) => DeleteMonitorStepKeeps(s, world, automatic, window, name);
  }

  lemma OtherStepKeeps(s: Screen, world: World, request: Request, automatic: AtomId)
    requires Inv(s, automatic) && ValidWorld(world) && world.automatic == automatic && !MovesOutput(request)
    ensures Inv(Step(s, world, request).0, automatic)
  {
    hide SetScreenConfigStep, SelectInputStep, SetScreenSizeStep, ConfigureStep, ChangeStep, DeleteStep, GetStep;
    hide CreateModeStep, DestroyModeStep, AddOutputModeStep, DeleteOutputModeStep, SetCrtcConfigStep;
    hide SetGammaStep, SetOutputPrimaryStep, SetMonitorStep, DeleteMonitorStep;
    hide Committed, ModesOk, MonitorsOk, PropertiesOk, Following, ValidWorld;
    match request
    case ReqSelectInput(client, window, mask) => SelectInputKeeps(s, world, automatic, client, window, mask);
    case ReqConfigureProperty(output, property, pending, range, values) =>
      ConfigureKeeps(s, world, automatic, output, property, pending, range, values);
    case ReqChangeProperty(output, property, typ, format, mode, units, data, order) =>
      ChangeKeeps(s, world, automatic, output, property, typ, format, mode, units, data, order);
    case ReqDeleteProperty(output, property) => DeletePropertyKeeps(s, world, automatic, output, property);
    case ReqGetProperty(output, property, typ, offset, length, remove, pending, order) =>
      GetPropertyKeeps(s, world, automatic, output, property, typ, offset, length, remove, pending, order);
    case ReqSetCrtcGamma(crtc, size, components) => GammaKeeps(s, world, automatic, crtc, size, components);
    case ReqSetCrtcTransform(crtc, transform) =>
      SettingKeeps(s, s.randr.(transform := transform), Configuration, world, automatic);
    case ReqSetPanning(crtc, values) => SettingKeeps(s, s.randr.(panning := values), Configuration, world, automatic);
  }

  /** Every request keeps the invariant, whatever its fields and its outcome. */
  lemma StepKeeps(s: Screen, world: World, request: Request, automatic: AtomId)
    requires Inv(s, automatic) && ValidWorld(world) && world.automatic == automatic
    ensures Inv(Step(s, world, request).0, automatic)
  {
    if MovesOutput(request) {
      OutputStepKeeps(s, world, request, automatic);
    } else {
      OtherStepKeeps(s, world, request, automatic);
    }
    hide Inv, Step;
  }

  // ---- Whole runs

  /** A run: requests, each with the world it meets. */
  type Log = seq<(World, Request)>

  predicate ValidLog(log: Log, automatic: AtomId) {
    forall k :: 0 <= k < |log| ==> ValidWorld(log[k].0) && log[k].0.automatic == automatic
  }

  lemma InitiallyOk(width: Word16, height: Word16, automatic: AtomId)
    requires 0 < width && 0 < height
    ensures Inv(InitialScreen(width, height, automatic), automatic)
  {
    hide DecimalDigits;
    var r := InitialRandr(width, height, automatic);
    assert r.monitors.Keys == {automatic} && r.modes.Keys == {INITIAL_MODE_ID};
    assert |r.monitors.Keys| == |r.monitors| && |r.modes.Keys| == |r.modes|;
  }

  /** The state after a run; the invariant makes every step's request legal. */
  ghost function StateAfter(width: Word16, height: Word16, automatic: AtomId, log: Log): (s: Screen)
    requires 0 < width && 0 < height && ValidLog(log, automatic)
    ensures Inv(s, automatic)
    decreases |log|
  {
    InitiallyOk(width, height, automatic);
    if log == [] then InitialScreen(width, height, automatic)
    else
      var n := |log| - 1;
      var before := StateAfter(width, height, automatic, log[..n]);
      StepKeeps(before, log[n].0, log[n].1, automatic);
      Step(before, log[n].0, log[n].1).0
  }

  /** After any run: mode names are unique and ids nonzero, the mode table is
      within its limit, the output's list names existing modes without
      repetition, the current mode is off or on that list, and its rectangle
      lies inside the screen. */
  lemma ReachableModes(width: Word16, height: Word16, automatic: AtomId, log: Log)
    requires 0 < width && 0 < height && ValidLog(log, automatic)
    ensures var s := StateAfter(width, height, automatic, log);
            var r := s.randr;
            && UniqueNames(r.modes) && 0 !in r.modes && |r.modes| <= MAXIMUM_MODES
            && Distinct(r.outputModes) && (forall id :: id in r.outputModes ==> id in r.modes)
            && (r.currentMode != 0 ==>
                  && r.currentMode in r.outputModes && r.currentMode in r.modes
                  && 0 <= r.crtcX && r.crtcX + r.modes[r.currentMode].width <= s.width
                  && 0 <= r.crtcY && r.crtcY + r.modes[r.currentMode].height <= s.height)
  {
    var s := StateAfter(width, height, automatic, log);
    hide PropertiesOk, MonitorsOk, StateAfter;
  }
}
