/** RANDR requests that change the monitor list and the primary output. */
module RandrMonitors {
  import opened Wire
  import opened RandrState
  import opened RandrModes

  type Monitors = map<AtomId, Monitor>

  /** The fields of a SetMonitor request; `automatic` is checked but not used. */
  datatype MonitorRequest = MonitorRequest(
    name: AtomId, primary: Byte, automatic: Byte, outputCount: Word16, x: Word16, y: Word16,
    width: Word16, height: Word16, millimetreWidth: Word32, millimetreHeight: Word32, outputs: seq<Word32>)

  predicate SharesOutput(a: seq<Word32>, b: seq<Word32>) {
    exists output :: output in a && output in b
  }

  predicate CoveredBy(monitor: Monitor, outputs: seq<Word32>) {
    monitor.automatic && SharesOutput(monitor.outputs, outputs)
  }

  // ---- SetMonitor

  /** Each listed output must be the one there is, and be listed once. */
  function OutputsError(outputs: seq<Word32>): Response {
    if outputs == [] then Done
    else if outputs[0] != OUTPUT_ID then Failed(BadOutput)
    else if |outputs| == 1 then Done
    else if outputs[1] != OUTPUT_ID then Failed(BadOutput)
    else Failed(BadMatch)
  }

  function Requested(m: MonitorRequest): Monitor {
    Monitor(m.name, m.primary != 0, false, SignedWord(m.x), SignedWord(m.y), m.width, m.height,
            m.millimetreWidth, m.millimetreHeight, m.outputs)
  }

  /** The monitor list with a new monitor: it takes over the primary flag if it
      asks for it, and automatic monitors that share one of its outputs go. */
  ghost function WithMonitor(monitors: Monitors, monitor: Monitor): Monitors {
    (map name | name in monitors && !CoveredBy(monitors[name], monitor.outputs) ::
       if monitor.primary then monitors[name].(primary := false) else monitors[name])
    [monitor.name := monitor]
  }

  ghost function SetMonitorStep(s: Screen, world: World, window: Word32, m: MonitorRequest): (Screen, Response) {
    if window !in world.windows then (s, Failed(BadWindow))
    else if m.name !in world.atoms then (s, Failed(BadAtom))
    else if world.atoms[m.name] == AUTOMATIC_NAME then (s, Failed(BadValue))
    else if m.primary > 1 || m.automatic > 1 || |m.outputs| != m.outputCount then (s, Failed(BadValue))
    else if m.name in s.randr.monitors then (s, Failed(BadValue))
    else if |s.randr.monitors| >= MAXIMUM_MONITORS then (s, Failed(BadAlloc))
    else if OutputsError(m.outputs) != Done then (s, OutputsError(m.outputs))
    else
      CommitOnly(s, s.randr.(monitors := WithMonitor(s.randr.monitors, Requested(m)),
                             primaryOutput := if m.primary != 0 && m.outputs != [] then m.outputs[0]
                                              else s.randr.primaryOutput),
                 Configuration, world)
  }

  /** The reading loop of SetMonitor: stops at the first output it refuses. */
  method ReadOutputs(listed: seq<Word32>) returns (outputs: seq<Word32>, error: Response)
    ensures error == OutputsError(listed)
    ensures error == Done ==> outputs == listed
  {
    outputs := [];
    for k := 0 to |listed|
      invariant outputs == listed[..k] && k <= 1 && (k == 1 ==> listed[0] == OUTPUT_ID)
    {
      if listed[k] != OUTPUT_ID {
        return [], Failed(BadOutput);
      }
      if listed[k] in outputs {
        return [], Failed(BadMatch);
      }
      outputs := outputs + [listed[k]];
    }
    return outputs, Done;
  }

  method ClearPrimary(monitors: Monitors) returns (cleared: Monitors)
    ensures cleared == map name | name in monitors :: monitors[name].(primary := false)
  {
    cleared := monitors;
    var names := monitors.Keys;
    while names != {}
      invariant names <= monitors.Keys == cleared.Keys
      invariant forall name :: name in monitors ==>
                  cleared[name] == if name in names then monitors[name] else monitors[name].(primary := false)
      decreases |names|
    {
      var name :| name in names;
      cleared := cleared[name := cleared[name].(primary := false)];
      names := names - {name};
    }
  }

  method EraseCovered(monitors: Monitors, outputs: seq<Word32>) returns (rest: Monitors)
    ensures rest == map name | name in monitors && !CoveredBy(monitors[name], outputs) :: monitors[name]
  {
    rest := monitors;
    var names := monitors.Keys;
    while names != {}
      invariant names <= monitors.Keys
      invariant forall name :: name in rest <==>
                  name in monitors && (name in names || !CoveredBy(monitors[name], outputs))
      invariant forall name :: name in rest ==> rest[name] == monitors[name]
      decreases |names|
    {
      var name :| name in names;
      if CoveredBy(monitors[name], outputs) {
        rest := rest - {name};
      }
      names := names - {name};
    }
  }

  method SetMonitor(server: ServerState, world: World, window: Word32, m: MonitorRequest) returns (response: Response)
    modifies server
    ensures (server.Contents(), response) == SetMonitorStep(old(server.Contents()), world, window, m)
  {
    hide Committed;
    if window !in world.windows {
      return Failed(BadWindow);
    }
    if m.name !in world.atoms {
      return Failed(BadAtom);
    }
    if world.atoms[m.name] == AUTOMATIC_NAME {
      return Failed(BadValue);
    }
    if m.primary > 1 || m.automatic > 1 || |m.outputs| != m.outputCount {
      return Failed(BadValue);
    }
    var candidate := server.randr;
    if m.name in candidate.monitors {
      return Failed(BadValue);
    }
    if |candidate.monitors| >= MAXIMUM_MONITORS {
      return Failed(BadAlloc);
    }
    var outputs, error := ReadOutputs(m.outputs);
    if error != Done {
      return error;
    }
    var monitor := Requested(m).(outputs := outputs);
    var monitors := candidate.monitors;
    if monitor.primary {
      monitors := ClearPrimary(monitors);
      if monitor.outputs != [] {
        candidate := candidate.(primaryOutput := monitor.outputs[0]);
      }
    }
    if monitor.outputs != [] {
      monitors := EraseCovered(monitors, monitor.outputs);
    }
    monitors := monitors[monitor.name := monitor];
    assert monitors == WithMonitor(server.randr.monitors, Requested(m));
    candidate := candidate.(monitors := monitors);
    var changed := server.CommitRandrState(candidate, Configuration, world);
    return UpdateResponse(changed);
  }

  // ---- DeleteMonitor

  predicate OutputCovered(monitors: Monitors) {
    exists name :: name in monitors && OUTPUT_ID in monitors[name].outputs
  }

  function AutomaticMonitor(name: AtomId): Monitor {
    Monitor(name, true, true, 0, 0, 0, 0, 0, 0, [OUTPUT_ID])
  }

  /** The list without one monitor, and with an automatic one again when a lit
      output would otherwise be left without any (an existing entry stays). */
  function WithoutMonitor(r: Randr, name: AtomId, automatic: AtomId): Monitors {
    var rest := r.monitors - {name};
    if OutputCovered(rest) || r.currentMode == 0 || automatic in rest then rest
    else rest[automatic := AutomaticMonitor(automatic)]
  }

  ghost function DeleteMonitorStep(s: Screen, world: World, window: Word32, name: AtomId): (Screen, Response) {
    if window !in world.windows then (s, Failed(BadWindow))
    else if name !in world.atoms then (s, Failed(BadAtom))
    else if name !in s.randr.monitors then (s, Failed(BadValue))
    else if s.randr.monitors[name].automatic then (s, Failed(BadMatch))
    else
      CommitOnly(s, s.randr.(monitors := WithoutMonitor(s.randr, name, world.automatic)), Configuration, world)
  }

  method DeleteMonitor(server: ServerState, world: World, window: Word32, name: AtomId) returns (response: Response)
    modifies server
    ensures (server.Contents(), response) == DeleteMonitorStep(old(server.Contents()), world, window, name)
  {
    hide Committed;
    if window !in world.windows {
      return Failed(BadWindow);
    }
    if name !in world.atoms {
      return Failed(BadAtom);
    }
    var candidate := server.randr;
    if name !in candidate.monitors {
      return Failed(BadValue);
    }
    if candidate.monitors[name].automatic {
      return Failed(BadMatch);
    }
    candidate := candidate.(monitors := candidate.monitors - {name});
    var outputIsCovered := OutputCovered(candidate.monitors);
    if !outputIsCovered && candidate.currentMode != 0 {
      var automaticName := world.automatic;
      if automaticName !in candidate.monitors {
        candidate := candidate.(monitors := candidate.monitors[automaticName := AutomaticMonitor(automaticName)]);
      }
    }
    var changed := server.CommitRandrState(candidate, Configuration, world);
    return UpdateResponse(changed);
  }

  // ---- SetOutputPrimary

  function ShowsPrimary(monitor: Monitor, output: Word32): bool { output != 0 && output in monitor.outputs }

  /** The monitors on the primary output, and no others, are primary. */
  function MarkedPrimary(monitors: Monitors, output: Word32): Monitors {
    map name | name in monitors :: monitors[name].(primary := ShowsPrimary(monitors[name], output))
  }

  ghost function SetOutputPrimaryStep(s: Screen, world: World, window: Word32, output: Word32): (Screen, Response) {
    if window !in world.windows then (s, Failed(BadWindow))
    else if output != 0 && output != OUTPUT_ID then (s, Failed(BadOutput))
    else
      CommitOnly(s, s.randr.(primaryOutput := output, monitors := MarkedPrimary(s.randr.monitors, output)),
                 Configuration, world)
  }

  method SetOutputPrimary(server: ServerState, world: World, window: Word32, output: Word32)
    returns (response: Response)
    modifies server
    ensures (server.Contents(), response) == SetOutputPrimaryStep(old(server.Contents()), world, window, output)
  {
    hide Committed;
    if window !in world.windows {
      return Failed(BadWindow);
    }
    if output != 0 && output != OUTPUT_ID {
      return Failed(BadOutput);
    }
    var candidate := server.randr;
    candidate := candidate.(primaryOutput := output);
    var monitors := MarkPrimary(candidate.monitors, output);
    candidate := candidate.(monitors := monitors);
    var changed := server.CommitRandrState(candidate, Configuration, world);
    return UpdateResponse(changed);
  }

  method MarkPrimary(monitors: Monitors, output: Word32) returns (marked: Monitors)
    ensures marked == MarkedPrimary(monitors, output)
  {
    marked := monitors;
    var names := monitors.Keys;
    while names != {}
      invariant names <= monitors.Keys == marked.Keys
      invariant forall name :: name in monitors ==>
                  marked[name] == if name in names then monitors[name]
                                  else monitors[name].(primary := ShowsPrimary(monitors[name], output))
      decreases |names|
    {
      var name :| name in names;
      marked := marked[name := marked[name].(primary := ShowsPrimary(monitors[name], output))];
      names := names - {name};
    }
  }
}
