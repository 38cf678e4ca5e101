/** The RANDR part of the server state and its two commit operations. */
module RandrState {
  import opened Wire

  const MAXIMUM_MODES: nat := 256
  const MAXIMUM_MONITORS: nat := 64
  const MAXIMUM_PROPERTIES: nat := 256
  const MAXIMUM_PROPERTY_BYTES: nat := 0x10_0000
  const MAXIMUM_SERVER_PROPERTY_BYTES: nat := 0x100_0000
  const MAXIMUM_FILTER_PARAMETERS: nat := 64
  const MAXIMUM_SCREEN: nat := 4096

  const CRTC_ID: Word32 := 0x200
  const OUTPUT_ID: Word32 := 0x201
  const INITIAL_MODE_ID: Word32 := 0x202

  type AtomId = Word32

  /** The name the server keeps for its own monitor. */
  const AUTOMATIC_NAME: string := "XMIN-0"

  datatype ModeTiming = ModeTiming(
    dotClock: Word32, hsyncStart: Word16, hsyncEnd: Word16, htotal: Word16, hskew: Word16,
    vsyncStart: Word16, vsyncEnd: Word16, vtotal: Word16, flags: Word32)

  datatype ModeInfo = ModeInfo(id: Word32, width: Word16, height: Word16, timing: ModeTiming, name: string,
                               builtIn: bool)

  datatype PropertyValue = PropertyValue(typ: AtomId, format: nat, data: seq<Byte>)

  const NO_VALUE: PropertyValue := PropertyValue(0, 0, [])

  datatype OutputProperty = OutputProperty(
    value: PropertyValue, pendingValue: PropertyValue, validValues: seq<int>,
    pending: bool, range: bool, immutable: bool)

  const NEW_PROPERTY: OutputProperty := OutputProperty(NO_VALUE, NO_VALUE, [], false, false, false)

  datatype Monitor = Monitor(
    name: AtomId, primary: bool, automatic: bool, x: int, y: int, width: Word16, height: Word16,
    millimetreWidth: Word32, millimetreHeight: Word32, outputs: seq<Word32>)

  datatype Transform = Transform(matrix: seq<int>, filter: string, parameters: seq<int>)

  datatype Subscription = Subscription(client: Word32, window: Word32, mask: Word16)

  datatype Randr = Randr(
    timestamp: Word32, configTimestamp: Word32,
    millimetreWidth: Word32, millimetreHeight: Word32,
    modes: map<Word32, ModeInfo>, outputModes: seq<Word32>,
    currentMode: Word32, nextModeId: Word32, primaryOutput: Word32,
    crtcX: int, crtcY: int, rotation: Word16,
    gammaRed: seq<Word16>, gammaGreen: seq<Word16>, gammaBlue: seq<Word16>,
    transform: Transform, panning: seq<int>,
    outputProperties: map<AtomId, OutputProperty>,
    monitors: map<AtomId, Monitor>,
    subscriptions: seq<Subscription>)

  /** What RANDR requests read and write: the RANDR state and the screen size. */
  datatype Screen = Screen(randr: Randr, width: Word16, height: Word16)

  /** The rest of the server as a request meets it: its windows and atoms, the
      time, whether the resulting events fit in the clients' queues (`room`) and
      whether resized screen surfaces can be allocated (`surfaces`). */
  datatype World = World(
    windows: set<Word32>, atoms: map<AtomId, string>, automatic: AtomId, now: Word32, room: bool, surfaces: bool)

  /** Atoms are interned once, and the automatic monitor's name always is. */
  predicate ValidWorld(world: World) {
    && 0 !in world.atoms && world.automatic in world.atoms
    && forall atom :: atom in world.atoms ==> (world.atoms[atom] == AUTOMATIC_NAME <==> atom == world.automatic)
  }

  datatype ErrorCode =
    | BadValue | BadWindow | BadAtom | BadMatch | BadAccess | BadAlloc | BadName | BadLength | BadOutput | BadCrtc
    | BadMode

  datatype Reply =
    | Status(status: nat)
    | NewMode(id: Word32)
    | Page(typ: AtomId, format: nat, bytesAfter: nat, units: nat, data: seq<Byte>)
    | Panned

  /** How a request ends. `DividedByZero` stands for a reply whose unit count
      the code computes with a zero divisor. */
  datatype Response =
    | Done
    | Failed(code: ErrorCode)
    | Replied(reply: Reply)
    | DividedByZero

  datatype RandrUpdate = Updated | Invalid | ResourceExhausted | QueueFull

  /** The error a request reports when its commit was refused. */
  function UpdateResponse(result: RandrUpdate): Response {
    match result
    case Updated => Done
    case Invalid => Failed(BadMatch)
    case ResourceExhausted => Failed(BadAlloc)
    case QueueFull => Failed(BadAlloc)
  }

  /** Which notifications a commit sends; only the last kind stamps the times. */
  datatype Notify = Silent | PropertyChange | Configuration

  function Enabled(r: Randr): bool { r.currentMode in r.modes }

  /** What a commit makes of one monitor: an automatic one follows the CRTC. */
  function Followed(r: Randr, screenWidth: Word16, screenHeight: Word16, monitor: Monitor): Monitor {
    if !monitor.automatic then monitor
    else if !Enabled(r) then
      monitor.(outputs := [], x := 0, y := 0, width := 0, height := 0, millimetreWidth := 0, millimetreHeight := 0)
    else
      var mode := r.modes[r.currentMode];
      monitor.(outputs := [OUTPUT_ID], x := r.crtcX, y := r.crtcY, width := mode.width, height := mode.height,
               millimetreWidth := ScaledMillimetres(mode.width, r.millimetreWidth, screenWidth),
               millimetreHeight := ScaledMillimetres(mode.height, r.millimetreHeight, screenHeight))
  }

  function ScaledMillimetres(pixels: Word16, millimetres: Word32, screen: Word16): Word32 {
    if screen == 0 then 0 else pixels * millimetres / screen % 0x1_0000_0000
  }

  ghost function FollowedAll(r: Randr, screenWidth: Word16, screenHeight: Word16): Randr {
    r.(monitors := map name | name in r.monitors :: Followed(r, screenWidth, screenHeight, r.monitors[name]))
  }

  ghost function Stamped(r: Randr, notify: Notify, now: Word32): Randr {
    if notify == Configuration then r.(timestamp := now, configTimestamp := now) else r
  }

  /** A candidate becomes the state, or nothing changes. */
  ghost function Committed(s: Screen, candidate: Randr, notify: Notify, world: World): (Screen, RandrUpdate) {
    if world.room
    then (s.(randr := Stamped(FollowedAll(candidate, s.width, s.height), notify, world.now)), Updated)
    else (s, QueueFull)
  }

  ghost function Resized(s: Screen, candidate: Randr, width: Word16, height: Word16,
                         world: World): (Screen, RandrUpdate) {
    if width == 0 || height == 0 then (s, Invalid)
    else if !world.surfaces then (s, ResourceExhausted)
    else if !world.room then (s, QueueFull)
    else (Screen(Stamped(FollowedAll(candidate, width, height), Configuration, world.now), width, height), Updated)
  }

  /** A commit followed by nothing but its own outcome. */
  ghost function CommitOnly(s: Screen, candidate: Randr, notify: Notify, world: World): (Screen, Response) {
    var (s', result) := Committed(s, candidate, notify, world);
    (s', UpdateResponse(result))
  }

  /** A commit followed by a reply when it succeeded. */
  ghost function CommitThenReply(s: Screen, candidate: Randr, notify: Notify, world: World,
                                 reply: Reply): (Screen, Response) {
    var (s', result) := Committed(s, candidate, notify, world);
    (s', if result == Updated then Replied(reply) else UpdateResponse(result))
  }

  class ServerState {
    var randr: Randr
    var width: Word16
    var height: Word16

    ghost function Contents(): Screen
      reads this
    {
      Screen(randr, width, height)
    }

    constructor (width: Word16, height: Word16, automatic: AtomId)
      ensures Contents() == InitialScreen(width, height, automatic)
    {
      randr := InitialRandr(width, height, automatic);
      this.width := width;
      this.height := height;
    }

    /** update_automatic_randr_monitors: edits the candidate's monitors in place. */
    static method FollowMonitors(candidate: Randr, screenWidth: Word16, screenHeight: Word16) returns (updated: Randr)
      ensures updated == FollowedAll(candidate, screenWidth, screenHeight)
    {
      updated := candidate;
      var names := candidate.monitors.Keys;
      while names != {}
        invariant names <= candidate.monitors.Keys == updated.monitors.Keys
        invariant updated == candidate.(monitors := updated.monitors)
        invariant forall name :: name in candidate.monitors ==>
                    updated.monitors[name] ==
                    if name in names then candidate.monitors[name]
                    else Followed(candidate, screenWidth, screenHeight, candidate.monitors[name])
        decreases |names|
      {
        var name :| name in names;
        var monitor := Followed(candidate, screenWidth, screenHeight, candidate.monitors[name]);
        updated := updated.(monitors := updated.monitors[name := monitor]);
        names := names - {name};
      }
      assert updated.monitors == FollowedAll(candidate, screenWidth, screenHeight).monitors;
    }

    method CommitRandrState(candidate: Randr, notify: Notify, world: World) returns (result: RandrUpdate)
      modifies this
      ensures (Contents(), result) == Committed(old(Contents()), candidate, notify, world)
    {
      var next := FollowMonitors(candidate, width, height);
      if notify == Configuration {
        next := next.(timestamp := world.now, configTimestamp := world.now);
      }
      if !world.room {
        return QueueFull;
      }
      randr := next;
      return Updated;
    }

    method ResizeRandrScreen(candidate: Randr, width: Word16, height: Word16, world: World)
      returns (result: RandrUpdate)
      modifies this
      ensures (Contents(), result) == Resized(old(Contents()), candidate, width, height, world)
    {
      if width == 0 || height == 0 {
        return Invalid;
      }
      var next := FollowMonitors(candidate, width, height);
      if !world.surfaces {
        return ResourceExhausted;
      }
      next := next.(timestamp := world.now, configTimestamp := world.now);
      if !world.room {
        return QueueFull;
      }
      this.width := width;
      this.height := height;
      randr := next;
      return Updated;
    }
  }

  /** Screen size in millimetres at 96 dots per inch, rounded. */
  function ScreenMillimetres(pixels: Word16): Word32 { (pixels * 254 + 480) / 960 }

  function DecimalDigits(n: nat): string {
    (if n < 10 then "" else DecimalDigits(n / 10)) + [(48 + n % 10) as char]
  }

  function InitialRandr(width: Word16, height: Word16, automatic: AtomId): Randr {
    var clock := width * height * 60;
    var timing := ModeTiming(if clock < 0x1_0000_0000 then clock else 0xffff_ffff,
                             width, width, width, 0, height, height, height, 0);
    var mode := ModeInfo(INITIAL_MODE_ID, width, height, timing, DecimalDigits(width) + "x" + DecimalDigits(height),
                         true);
    var millimetreWidth, millimetreHeight := ScreenMillimetres(width), ScreenMillimetres(height);
    var ramp := seq(256, (k: nat) => k * 257 % 0x1_0000);
    Randr(1, 1, millimetreWidth, millimetreHeight,
          map[INITIAL_MODE_ID := mode], [INITIAL_MODE_ID],
          INITIAL_MODE_ID, INITIAL_MODE_ID + 1, OUTPUT_ID, 0, 0, 1,
          ramp, ramp, ramp,
          Transform([65536, 0, 0, 0, 65536, 0, 0, 0, 65536], "", []),
          seq(12, _ => 0),
          map[],
          map[automatic := Monitor(automatic, true, true, 0, 0, width, height, millimetreWidth, millimetreHeight,
                                   [OUTPUT_ID])],
          [])
  }

  function InitialScreen(width: Word16, height: Word16, automatic: AtomId): Screen {
    Screen(InitialRandr(width, height, automatic), width, height)
  }
}
