/** RANDR output properties: configure, change, delete and paged reads. */
module RandrProperties {
  import opened Arith
  import opened Wire
  import opened PropertyData
  import opened RandrState

  type Properties = map<AtomId, OutputProperty>

  function Bytes(p: OutputProperty): nat { |p.value.data| + |p.pendingValue.data| }

  // ---- output_property_bytes

  /** Bytes held by all output properties. */
  ghost function TotalBytes(properties: Properties): nat
    decreases |properties|
  {
    if properties == map[] then 0
    else
      var name :| name in properties;
      Bytes(properties[name]) + TotalBytes(properties - {name})
  }

  /** The total does not depend on the order in which properties are visited. */
  lemma {:induction false} TotalSplit(properties: Properties, name: AtomId)
    requires name in properties
    ensures TotalBytes(properties) == Bytes(properties[name]) + TotalBytes(properties - {name})
    decreases |properties|
  {
    var first :| first in properties &&
        TotalBytes(properties) == Bytes(properties[first]) + TotalBytes(properties - {first});
    if first != name {
      TotalSplit(properties - {first}, name);
      TotalSplit(properties - {name}, first);
      assert properties - {first} - {name} == properties - {name} - {first};
    }
  }

  lemma TotalUpdate(properties: Properties, name: AtomId, p: OutputProperty)
    ensures TotalBytes(properties[name := p]) ==
            TotalBytes(properties) + Bytes(p) - (if name in properties then Bytes(properties[name]) else 0)
  {
    var updated := properties[name := p];
    TotalSplit(updated, name);
    assert updated - {name} == properties - {name};
    if name in properties {
      TotalSplit(properties, name);
    } else {
      assert properties - {name} == properties;
    }
  }

  method OutputPropertyBytes(r: Randr) returns (total: nat)
    ensures total == TotalBytes(r.outputProperties)
  {
    total := 0;
    var rest := r.outputProperties;
    while rest != map[]
      invariant total + TotalBytes(rest) == TotalBytes(r.outputProperties)
      decreases |rest|
    {
      var name :| name in rest;
      TotalSplit(rest, name);
      total := total + |rest[name].value.data| + |rest[name].pendingValue.data|;
      rest := rest - {name};
    }
  }

  // ---- The invariant of the table

  /** A value is unwritten, or a whole number of units of its format. */
  predicate ValueOk(v: PropertyValue) {
    && |v.data| <= MAXIMUM_PROPERTY_BYTES
    && (if v.format == 0 then v.data == [] else ValidFormat(v.format) && Whole(|v.data|, Unit(v.format)))
  }

  predicate PropertyOk(p: OutputProperty) {
    ValueOk(p.value) && ValueOk(p.pendingValue)
  }

  ghost predicate PropertiesOk(r: Randr) {
    && |r.outputProperties| <= MAXIMUM_PROPERTIES
    && TotalBytes(r.outputProperties) <= MAXIMUM_SERVER_PROPERTY_BYTES
    && forall name :: name in r.outputProperties ==> PropertyOk(r.outputProperties[name])
  }

  function Current(r: Randr, property: AtomId): OutputProperty {
    if property in r.outputProperties then r.outputProperties[property] else NEW_PROPERTY
  }

  /** The value a change applies to: the pending one where a property has one. */
  function Target(p: OutputProperty): PropertyValue { if p.pending then p.pendingValue else p.value }

  function WithTarget(p: OutputProperty, v: PropertyValue): OutputProperty {
    if p.pending then p.(pendingValue := v) else p.(value := v)
  }

  predicate TableFull(r: Randr, property: AtomId) {
    property !in r.outputProperties && |r.outputProperties| >= MAXIMUM_PROPERTIES
  }

  // ---- ConfigureOutputProperty

  function Configured(p: OutputProperty, pending: Byte, range: Byte, values: seq<int>): OutputProperty {
    OutputProperty(p.value, if pending == 0 then NO_VALUE else p.pendingValue, values, pending != 0, range != 0,
                   p.immutable)
  }

  ghost function ConfigureStep(s: Screen, world: World, output: Word32, property: AtomId,
                               pending: Byte, range: Byte, values: seq<int>): (Screen, Response) {
    if output != OUTPUT_ID then (s, Failed(BadOutput))
    else if property !in world.atoms then (s, Failed(BadAtom))
    else if pending > 1 || range > 1 then (s, Failed(BadValue))
    else if TableFull(s.randr, property) then (s, Failed(BadAlloc))
    else if range != 0 && |values| % 2 != 0 then (s, Failed(BadMatch))
    else
      CommitOnly(s, s.randr.(outputProperties :=
        s.randr.outputProperties[property :=
          Configured(Current(s.randr, property), pending, range, values)]), Silent, world)
  }

  method ConfigureOutputProperty(server: ServerState, world: World, output: Word32, property: AtomId,
                                 pending: Byte, range: Byte, values: seq<int>) returns (response: Response)
    modifies server
    ensures (server.Contents(), response) ==
            ConfigureStep(old(server.Contents()), world, output, property, pending, range, values)
  {
    if output != OUTPUT_ID {
      return Failed(BadOutput);
    }
    if property !in world.atoms {
      return Failed(BadAtom);
    }
    if pending > 1 || range > 1 {
      return Failed(BadValue);
    }
    var candidate := server.randr;
    var createsProperty := property !in candidate.outputProperties;
    if createsProperty && |candidate.outputProperties| >= MAXIMUM_PROPERTIES {
      return Failed(BadAlloc);
    }
    var record := if createsProperty then NEW_PROPERTY else candidate.outputProperties[property];
    if pending == 0 {
      record := record.(pendingValue := NO_VALUE);
    }
    record := record.(pending := pending != 0, range := range != 0);
    record := record.(validValues := values);
    if record.range && |record.validValues| % 2 != 0 {
      return Failed(BadMatch);
    }
    candidate := candidate.(outputProperties := candidate.outputProperties[property := record]);
    var changed := server.CommitRandrState(candidate, Silent, world);
    return UpdateResponse(changed);
  }

  // ---- ChangeOutputProperty

  /** Replace, prepend or append. */
  function Edited(stored: seq<Byte>, data: seq<Byte>, mode: Byte): seq<Byte> {
    if mode == 0 then data else if mode == 1 then data + stored else stored + data
  }

  predicate Mismatched(v: PropertyValue, mode: Byte, typ: AtomId, format: nat) {
    mode != 0 && v.data != [] && (v.typ != typ || v.format != format)
  }

  ghost function ChangedTable(r: Randr, property: AtomId, typ: AtomId, format: nat, mode: Byte,
                              data: seq<Byte>): Properties {
    var p := Current(r, property);
    r.outputProperties[property := WithTarget(p, PropertyValue(typ, format, Edited(Target(p).data, data, mode)))]
  }

  /** The size test of the handler, on the table the change would leave. */
  ghost predicate FitsAfter(r: Randr, property: AtomId, typ: AtomId, format: nat, mode: Byte, data: seq<Byte>) {
    var before := |Target(Current(r, property)).data|;
    var total := TotalBytes(ChangedTable(r, property, typ, format, mode, data));
    && |Edited(Target(Current(r, property)).data, data, mode)| <= MAXIMUM_PROPERTY_BYTES
    && before <= total <= MAXIMUM_SERVER_PROPERTY_BYTES
  }

  /** Bytes in a number of units. */
  function DataSize(units: nat, format: int): nat
    requires ValidFormat(format)
  {
    units * (format / 8)
  }

  ghost function ChangeStep(s: Screen, world: World, output: Word32, property: AtomId, typ: AtomId, format: Byte,
                            mode: Byte, units: Word32, data: seq<Byte>, order: ByteOrder): (Screen, Response) {
    if output != OUTPUT_ID then (s, Failed(BadOutput))
    else if property !in world.atoms || typ !in world.atoms then (s, Failed(BadAtom))
    else if !ValidFormat(format) || mode > 2 then (s, Failed(BadValue))
    else if |data| != DataSize(units, format) then (s, Failed(BadLength))
    else if TableFull(s.randr, property) then (s, Failed(BadAlloc))
    else if Current(s.randr, property).immutable then (s, Failed(BadAccess))
    else if Mismatched(Target(Current(s.randr, property)), mode, typ, format) then (s, Failed(BadMatch))
    else
      var canonical := Swapped(data, Unit(format), order);
      if !FitsAfter(s.randr, property, typ, format, mode, canonical) then (s, Failed(BadAlloc))
      else
        CommitOnly(s, s.randr.(outputProperties := ChangedTable(s.randr, property, typ, format, mode, canonical)),
                   PropertyChange, world)
  }

  lemma UnitsAreWhole(units: nat, format: int)
    requires ValidFormat(format)
    ensures Whole(DataSize(units, format), Unit(format))
  {
  }

  method EditTarget(p: OutputProperty, data: seq<Byte>, mode: Byte, typ: AtomId, format: nat)
    returns (record: OutputProperty, value: PropertyValue)
    ensures value == PropertyValue(typ, format, Edited(Target(p).data, data, mode))
    ensures record == WithTarget(p, value)
  {
    record := p;
    value := if record.pending then record.pendingValue else record.value;
    if mode == 0 {
      value := value.(data := data);
    } else if mode == 1 {
      value := value.(data := data + value.data);
    } else {
      value := value.(data := value.data + data);
    }
    value := value.(typ := typ);
    value := value.(format := format);
    record := if record.pending then record.(pendingValue := value) else record.(value := value);
  }

  method ChangeOutputProperty(server: ServerState, world: World, output: Word32, property: AtomId, typ: AtomId,
                              format: Byte,
                              mode: Byte, units: Word32, data: seq<Byte>, order: ByteOrder) returns (response: Response)
    modifies server
    ensures (server.Contents(), response) ==
            ChangeStep(old(server.Contents()), world, output, property, typ, format, mode, units, data, order)
  {
    hide Swapped, Whole, Committed, TableFull, DataSize, FitsAfter, ChangedTable, Mismatched, Target;
    if output != OUTPUT_ID {
      return Failed(BadOutput);
    }
    if property !in world.atoms {
      return Failed(BadAtom);
    }
    if typ !in world.atoms {
      return Failed(BadAtom);
    }
    if format != 8 && format != 16 && format != 32 {
      return Failed(BadValue);
    }
    if mode > 2 {
      return Failed(BadValue);
    }
    if |data| != DataSize(units, format) {
      return Failed(BadLength);
    }
    UnitsAreWhole(units, format);
    var canonical := CanonicalPropertyData(data, format, order);
    if TableFull(server.randr, property) {
      return Failed(BadAlloc);
    }
    if property in server.randr.outputProperties && server.randr.outputProperties[property].immutable {
      return Failed(BadAccess);
    }
    response := StoreChange(server, world, property, typ, format, mode, canonical.value);
  }

  /** What follows the checks of the request itself: the edit of a copy, the size
      tests and the commit. */
  ghost function StoreStep(s: Screen, world: World, property: AtomId, typ: AtomId, format: nat, mode: Byte,
                           canonical: seq<Byte>): (Screen, Response) {
    if Mismatched(Target(Current(s.randr, property)), mode, typ, format) then (s, Failed(BadMatch))
    else if !FitsAfter(s.randr, property, typ, format, mode, canonical) then (s, Failed(BadAlloc))
    else
      CommitOnly(s, s.randr.(outputProperties := ChangedTable(s.randr, property, typ, format, mode, canonical)),
                 PropertyChange, world)
  }

  method StoreChange(server: ServerState, world: World, property: AtomId, typ: AtomId, format: nat, mode: Byte,
                     canonical: seq<Byte>)
    returns (response: Response)
    requires mode <= 2
    modifies server
    ensures (server.Contents(), response) ==
            StoreStep(old(server.Contents()), world, property, typ, format, mode, canonical)
  {
    hide TotalBytes, Committed, WithTarget, Edited;
    var candidate := server.randr;
    var record := if property in candidate.outputProperties then candidate.outputProperties[property] else NEW_PROPERTY;
    var value := if record.pending then record.pendingValue else record.value;
    if mode != 0 && value.data != [] && (value.typ != typ || value.format != format) {
      return Failed(BadMatch);
    }
    var previousSize := |value.data|;
    record, value := EditTarget(record, canonical, mode, typ, format);
    candidate := candidate.(outputProperties := candidate.outputProperties[property := record]);
    var total := OutputPropertyBytes(candidate);
    if |value.data| > MAXIMUM_PROPERTY_BYTES || total < previousSize || total > MAXIMUM_SERVER_PROPERTY_BYTES {
      return Failed(BadAlloc);
    }
    var changed := server.CommitRandrState(candidate, PropertyChange, world);
    return UpdateResponse(changed);
  }

  // ---- DeleteOutputProperty

  ghost function DeleteStep(s: Screen, world: World, output: Word32, property: AtomId): (Screen, Response) {
    if output != OUTPUT_ID then (s, Failed(BadOutput))
    else if property !in world.atoms then (s, Failed(BadAtom))
    else if property !in s.randr.outputProperties then (s, Failed(BadName))
    else if s.randr.outputProperties[property].immutable then (s, Failed(BadAccess))
    else CommitOnly(s, s.randr.(outputProperties := s.randr.outputProperties - {property}), PropertyChange, world)
  }

  method DeleteOutputProperty(server: ServerState, world: World, output: Word32, property: AtomId)
    returns (response: Response)
    modifies server
    ensures (server.Contents(), response) == DeleteStep(old(server.Contents()), world, output, property)
  {
    if output != OUTPUT_ID {
      return Failed(BadOutput);
    }
    if property !in world.atoms {
      return Failed(BadAtom);
    }
    var candidate := server.randr;
    if property !in candidate.outputProperties {
      return Failed(BadName);
    }
    if candidate.outputProperties[property].immutable {
      return Failed(BadAccess);
    }
    candidate := candidate.(outputProperties := candidate.outputProperties - {property});
    var changed := server.CommitRandrState(candidate, PropertyChange, world);
    return UpdateResponse(changed);
  }

  // ---- GetOutputProperty

  const EMPTY_PAGE: Reply := Page(0, 0, 0, 0, [])

  function Selected(p: OutputProperty, pending: Byte): PropertyValue {
    if pending != 0 && p.pending then p.pendingValue else p.value
  }

  /** Bytes left from a word offset on, cut to a page of `length` words. */
  function PageOf(data: seq<Byte>, offset: Word32, length: Word32): seq<Byte>
    requires offset * 4 <= |data|
  {
    var rest := data[offset * 4..];
    if length * 4 <= |rest| then rest[..length * 4] else rest
  }

  function PageReply(v: PropertyValue, offset: Word32, length: Word32, order: ByteOrder): (reply: Reply)
    requires ValidFormat(v.format) && offset * 4 <= |v.data|
    ensures reply.Page?
  {
    var page := PageOf(v.data, offset, length);
    Page(v.typ, v.format, |v.data| - offset * 4 - |page|, |page| / Unit(v.format), Swapped(page, Unit(v.format), order))
  }

  ghost function GetStep(s: Screen, world: World, output: Word32, property: AtomId, requestedType: AtomId,
                         offset: Word32,
                         length: Word32, remove: Byte, pending: Byte, order: ByteOrder): (Screen, Response)
    requires PropertiesOk(s.randr)
  {
    if output != OUTPUT_ID then (s, Failed(BadOutput))
    else if property !in world.atoms || (requestedType != 0 && requestedType !in world.atoms) then (s, Failed(BadAtom))
    else if remove > 1 || pending > 1 then (s, Failed(BadValue))
    else if property !in s.randr.outputProperties then (s, Replied(EMPTY_PAGE))
    else
      var p := s.randr.outputProperties[property];
      var v := Selected(p, pending);
      if remove != 0 && p.immutable then (s, Failed(BadAccess))
      else if requestedType != 0 && requestedType != v.typ then (s, Replied(Page(v.typ, v.format, |v.data|, 0, [])))
      else if offset * 4 > |v.data| then (s, Failed(BadValue))
      else if v.format == 0 then (s, DividedByZero)
      else if remove != 0 && PageReply(v, offset, length, order).bytesAfter == 0 then
        CommitThenReply(s, s.randr.(outputProperties := s.randr.outputProperties - {property}), PropertyChange, world,
                        PageReply(v, offset, length, order))
      else (s, Replied(PageReply(v, offset, length, order)))
  }

  lemma PageIsWhole(v: PropertyValue, offset: Word32, length: Word32)
    requires ValueOk(v) && v.format != 0 && offset * 4 <= |v.data|
    ensures Whole(|PageOf(v.data, offset, length)|, Unit(v.format))
  {
    WordsAreWhole(|v.data|, offset, length, Unit(v.format));
    hide Whole;
    var rest := |v.data| - offset * 4;
    assert |PageOf(v.data, offset, length)| == if length * 4 <= rest then length * 4 else rest;
  }

  lemma WordsAreWhole(total: nat, offset: nat, length: nat, unit: nat)
    requires Whole(total, unit) && offset * 4 <= total
    ensures Whole(length * 4, unit) && Whole(total - offset * 4, unit)
  {
    WordsOfUnits(offset, unit);
    WordsOfUnits(length, unit);
    WholeSums(total, offset * 4, unit);
  }

  lemma WordsOfUnits(words: nat, unit: nat)
    requires Whole(0, unit)
    ensures Whole(words * 4, unit)
  {
    DivisionUnique(words * 4, words, 4, 0);
    DivisionUnique(words * 4, words * 2, 2, 0);
  }

  /** The reply for one page, with its unit count computed last. */
  method EncodePage(value: PropertyValue, offset: Word32, length: Word32, order: ByteOrder) returns (response: Response)
    requires ValueOk(value) && offset * 4 <= |value.data|
    ensures response == if value.format == 0 then DividedByZero else Replied(PageReply(value, offset, length, order))
  {
    hide Swapped, Whole;
    var start, requested := offset * 4, length * 4;
    var returned := if requested < |value.data| - start then requested else |value.data| - start;
    var after := |value.data| - start - returned;
    var encoded: seq<Byte> := [];
    if returned != 0 {
      PageIsWhole(value, offset, length);
      assert value.data[start..start + returned] == PageOf(value.data, offset, length);
      encoded := WirePropertyData(value.data[start..start + returned], value.format, order);
    } else if value.format != 0 {
      EmptySwap(Unit(value.format), order);
      assert PageOf(value.data, offset, length) == [];
    }
    if value.format / 8 == 0 {
      return DividedByZero;
    }
    return Replied(Page(value.typ, value.format, after, |encoded| / (value.format / 8), encoded));
  }

  method GetOutputProperty(server: ServerState, world: World, output: Word32, property: AtomId, requestedType: AtomId,
                           offset: Word32, length: Word32, remove: Byte, pending: Byte, order: ByteOrder)
    returns (response: Response)
    requires PropertiesOk(server.randr)
    modifies server
    ensures (server.Contents(), response) ==
            GetStep(old(server.Contents()), world, output, property, requestedType, offset, length, remove, pending,
                    order)
  {
    hide TotalBytes, Swapped, Whole, ValueOk, PageReply, Committed;
    if output != OUTPUT_ID {
      return Failed(BadOutput);
    }
    if property !in world.atoms {
      return Failed(BadAtom);
    }
    if requestedType != 0 && requestedType !in world.atoms {
      return Failed(BadAtom);
    }
    if remove > 1 || pending > 1 {
      return Failed(BadValue);
    }
    if property !in server.randr.outputProperties {
      return Replied(EMPTY_PAGE);
    }
    var record := server.randr.outputProperties[property];
    var value := if pending != 0 && record.pending then record.pendingValue else record.value;
    if remove != 0 && record.immutable {
      return Failed(BadAccess);
    }
    if requestedType != 0 && requestedType != value.typ {
      return Replied(Page(value.typ, value.format, |value.data|, 0, []));
    }
    if offset * 4 > |value.data| {
      return Failed(BadValue);
    }
    assert PropertyOk(record);
    response := EncodePage(value, offset, length, order);
    if response.DividedByZero? {
      return;
    }
    if remove != 0 && response.reply.bytesAfter == 0 {
      var candidate := server.randr;
      candidate := candidate.(outputProperties := candidate.outputProperties - {property});
      var changed := server.CommitRandrState(candidate, PropertyChange, world);
      if changed != Updated {
        return UpdateResponse(changed);
      }
    }
  }

  lemma EmptySwap(unit: nat, order: ByteOrder)
    requires 0 < unit
    ensures Swapped([], unit, order) == []
  {
  }
}
