/** The RANDR request handler as a state machine, and what all its runs keep. */
module RandrRequests {
  import opened Wire
  import opened PropertyData
  import opened RandrState
  import opened RandrModes
  import opened RandrProperties
  import opened RandrMonitors
  import opened RandrSettings

  /** Every request that can change the RANDR state, with its parsed fields. */
  datatype Request =
    | ReqSetScreenConfig(window: Word32, timestamp: Word32, configTimestamp: Word32, size: Word16, rotation: Word16,
                         rate: Word16)
    | ReqSelectInput(client: Word32, window: Word32, mask: Word16)
    | ReqSetScreenSize(window: Word32, width: Word16, height: Word16, millimetreWidth: Word32, millimetreHeight: Word32)
    | ReqConfigureProperty(output: Word32, property: AtomId, pending: Byte, range: Byte, values: seq<int>)
    | ReqChangeProperty(output: Word32, property: AtomId, typ: AtomId, format: Byte, mode: Byte, units: Word32,
                        data: seq<Byte>, order: ByteOrder)
    | ReqDeleteProperty(output: Word32, property: AtomId)
    | ReqGetProperty(output: Word32, property: AtomId, typ: AtomId, offset: Word32, length: Word32, remove: Byte,
                     pending: Byte, order: ByteOrder)
    | ReqCreateMode(window: Word32, width: Word16, height: Word16, timing: ModeTiming, name: string)
    | ReqDestroyMode(id: Word32)
    | ReqAddOutputMode(output: Word32, id: Word32)
    | ReqDeleteOutputMode(output: Word32, id: Word32)
    | ReqSetCrtcConfig(crtc: Word32, configTimestamp: Word32, x: Word16, y: Word16, id: Word32, rotation: Word16,
                       outputs: seq<Word32>)
    | ReqSetCrtcGamma(crtc: Word32, gammaSize: Word16, components: seq<Word16>)
    | ReqSetCrtcTransform(crtc: Word32, transform: Transform)
    | ReqSetPanning(crtc: Word32, panning: seq<int>)
    | ReqSetOutputPrimary(window: Word32, output: Word32)
    | ReqSetMonitor(window: Word32, monitor: MonitorRequest)
    | ReqDeleteMonitor(window: Word32, monitorName: AtomId)

  ghost function Step(s: Screen, world: World, request: Request): (Screen, Response)
    requires PropertiesOk(s.randr)
  {
    match request
    case ReqSetScreenConfig(window, timestamp, configTimestamp, size, rotation, rate) =>
      SetScreenConfigStep(s, world, window, timestamp, configTimestamp, size, rotation, rate)
    case ReqSelectInput(client, window, mask) => SelectInputStep(s, world, client, window, mask)
    case ReqSetScreenSize(window, width, height, millimetreWidth, millimetreHeight) =>
      SetScreenSizeStep(s, world, window, width, height, millimetreWidth, millimetreHeight)
    case ReqConfigureProperty(output, property, pending, range, values) =>
      ConfigureStep(s, world, output, property, pending, range, values)
    case ReqChangeProperty(output, property, typ, format, mode, units, data, order) =>
      ChangeStep(s, world, output, property, typ, format, mode, units, data, order)
    case ReqDeleteProperty(output, property) => DeleteStep(s, world, output, property)
    case ReqGetProperty(output, property, typ, offset, length, remove, pending, order) =>
      GetStep(s, world, output, property, typ, offset, length, remove, pending, order)
    case ReqCreateMode(window, width, height, timing, name) =>
      CreateModeStep(s, world, window, width, height, timing, name)
    case ReqDestroyMode(id) => DestroyModeStep(s, world, id)
    case ReqAddOutputMode(output, id) => AddOutputModeStep(s, world, output, id)
    case ReqDeleteOutputMode(output, id) => DeleteOutputModeStep(s, world, output, id)
    case ReqSetCrtcConfig(crtc, configTimestamp, x, y, id, rotation, outputs) =>
      SetCrtcConfigStep(s, world, crtc, configTimestamp, x, y, id, rotation, outputs)
    case ReqSetCrtcGamma(crtc, size, components) => SetGammaStep(s, world, crtc, size, components)
    case ReqSetCrtcTransform(crtc, transform) => SetTransformStep(s, world, crtc, transform)
    case ReqSetPanning(crtc, values) => SetPanningStep(s, world, crtc, values)
    case ReqSetOutputPrimary(window, output) => SetOutputPrimaryStep(s, world, window, output)
    case ReqSetMonitor(window, monitor) => SetMonitorStep(s, world, window, monitor)
    case ReqDeleteMonitor(window, name) => DeleteMonitorStep(s, world, window, name)
  }

  /** The handler does what the state machine says. */
  method Handle(server: ServerState, world: World, request: Request) returns (response: Response)
    requires PropertiesOk(server.randr) && RampsOk(server.randr)
    modifies server
    ensures (server.Contents(), response) == Step(old(server.Contents()), world, request)
  {
    hide SetScreenConfigStep, SelectInputStep, SetScreenSizeStep, ConfigureStep, ChangeStep, DeleteStep, GetStep;
    hide CreateModeStep, DestroyModeStep, AddOutputModeStep, DeleteOutputModeStep, SetCrtcConfigStep;
    hide SetGammaStep, SetTransformStep, SetPanningStep, SetOutputPrimaryStep, SetMonitorStep, DeleteMonitorStep;
    hide PropertiesOk, RampsOk;
    match request {
      case ReqSetScreenConfig(window, timestamp, configTimestamp, size, rotation, rate) =>
        response := SetScreenConfig(server, world, window, timestamp, configTimestamp, size, rotation, rate);
      case ReqSelectInput(client, window, mask) => response := SelectInput(server, world, client, window, mask);
      case ReqSetScreenSize(window, width, height, millimetreWidth, millimetreHeight) =>
        response := SetScreenSize(server, world, window, width, height, millimetreWidth, millimetreHeight);
      case ReqConfigureProperty(output, property, pending, range, values) =>
        response := ConfigureOutputProperty(server, world, output, property, pending, range, values);
      case ReqChangeProperty(output, property, typ, format, mode, units, data, order) =>
        response := ChangeOutputProperty(server, world, output, property, typ, format, mode, units, data, order);
      case ReqDeleteProperty(output, property) => response := DeleteOutputProperty(server, world, output, property);
      case ReqGetProperty(output, property, typ, offset, length, remove, pending, order) =>
        response := GetOutputProperty(server, world, output, property, typ, offset, length, remove, pending, order);
      case ReqCreateMode(window, width, height, timing, name) =>
        response := CreateMode(server, world, window, width, height, timing, name);
      case ReqDestroyMode(id) => response := DestroyMode(server, world, id);
      case ReqAddOutputMode(output, id) => response := ChangeOutputMode(server, world, true, output, id);
      case ReqDeleteOutputMode(output, id) => response := ChangeOutputMode(server, world, false, output, id);
      case ReqSetCrtcConfig(crtc, configTimestamp, x, y, id, rotation, outputs) =>
        response := SetCrtcConfig(server, world, crtc, configTimestamp, x, y, id, rotation, outputs);
      case ReqSetCrtcGamma(crtc, size, components) => response := SetCrtcGamma(server, world, crtc, size, components);
      case ReqSetCrtcTransform(crtc, transform) => response := SetCrtcTransform(server, world, crtc, transform);
      case ReqSetPanning(crtc, values) => response := SetPanning(server, world, crtc, values);
      case ReqSetOutputPrimary(window, output) => response := SetOutputPrimary(server, world, window, output);
      case ReqSetMonitor(window, monitor) => response := SetMonitor(server, world, window, monitor);
      case ReqDeleteMonitor(window, name) => response := DeleteMonitor(server, world, window, name);
    }
  }

  /** A request answered with a protocol error, whichever it is, leaves the
      whole RANDR state and the screen size as they were. */
  lemma ErrorsChangeNothing(s: Screen, world: World, request: Request)
    requires PropertiesOk(s.randr)
    ensures !Step(s, world, request).1.Done? && !Step(s, world, request).1.Replied? ==> Step(s, world, request).0 == s
  {
    hide TotalBytes, Swapped, FollowedAll, PageReply, PropertyOk;
  }

  // ---- What every reachable state satisfies

  predicate Distinct(ids: seq<Word32>) {
    forall i, j :: 0 <= i < j < |ids| ==> ids[i] != ids[j]
  }

  predicate UniqueNames(modes: map<Word32, ModeInfo>) {
    forall a, b :: a in modes && b in modes && modes[a].name == modes[b].name ==> a == b
  }

  /** The current mode's rectangle, at the CRTC's position, lies on the screen. */
  predicate CrtcInside(r: Randr, width: Word16, height: Word16) {
    r.currentMode in r.modes ==>
      0 <= r.crtcX && r.crtcX + r.modes[r.currentMode].width <= width &&
      0 <= r.crtcY && r.crtcY + r.modes[r.currentMode].height <= height
  }

  /** Modes are stored under their own nonzero ids, have a size and unique names. */
  predicate TableOk(modes: map<Word32, ModeInfo>) {
    && |modes| <= MAXIMUM_MODES && 0 !in modes
    && (forall id :: id in modes ==> modes[id].id == id && 0 < modes[id].width && 0 < modes[id].height)
    && UniqueNames(modes)
  }

  /** The output lists existing modes once each, and shows none or one of them. */
  predicate ListOk(r: Randr) {
    && Distinct(r.outputModes) && (forall id :: id in r.outputModes ==> id in r.modes)
    && (r.currentMode == 0 || r.currentMode in r.outputModes)
  }

  predicate ModesOk(r: Randr, width: Word16, height: Word16) {
    TableOk(r.modes) && ListOk(r) && CrtcInside(r, width, height)
  }

  /** What holds of monitors before a commit lets automatic ones follow the CRTC. */
  predicate MonitorsOk(r: Randr, automatic: AtomId) {
    && |r.monitors| <= MAXIMUM_MONITORS
    && forall name :: name in r.monitors ==>
         && r.monitors[name].name == name
         && (r.monitors[name].automatic <==> name == automatic)
         && (r.monitors[name].outputs == [] || r.monitors[name].outputs == [OUTPUT_ID])
  }

  /** An automatic monitor shows the output exactly while the CRTC is on. */
  predicate Following(r: Randr, automatic: AtomId) {
    automatic in r.monitors ==> (r.monitors[automatic].outputs == if Enabled(r) then [OUTPUT_ID] else [])
  }

  ghost predicate CandidateOk(r: Randr, width: Word16, height: Word16, automatic: AtomId) {
    ModesOk(r, width, height) && MonitorsOk(r, automatic) && PropertiesOk(r) && RampsOk(r)
  }

  ghost predicate Inv(s: Screen, automatic: AtomId) {
    CandidateOk(s.randr, s.width, s.height, automatic) && Following(s.randr, automatic)
  }
}
