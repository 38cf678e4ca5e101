/** What runs of property requests keep, and what successive pages add up to. */
module RandrPropertyLaws {
  import opened Wire
  import opened PropertyData
  import opened RandrState
  import opened RandrProperties

  /** Only the properties of a state matter to their invariant. */
  lemma CommitKeepsProperties(s: Screen, candidate: Randr, notify: Notify, world: World)
    requires PropertiesOk(s.randr) && PropertiesOk(candidate)
    ensures PropertiesOk(Committed(s, candidate, notify, world).0.randr)
  {
  }

  /** Storing one more well-formed property within the limits keeps the table well formed. */
  lemma StoreKeepsProperties(r: Randr, property: AtomId, p: OutputProperty)
    requires PropertiesOk(r) && PropertyOk(p) && !TableFull(r, property)
    requires TotalBytes(r.outputProperties[property := p]) <= MAXIMUM_SERVER_PROPERTY_BYTES
    ensures PropertiesOk(r.(outputProperties := r.outputProperties[property := p]))
  {
    hide TotalBytes, PropertyOk;
    var updated := r.outputProperties[property := p];
    assert updated.Keys == r.outputProperties.Keys + {property};
    assert |updated.Keys| == |updated| && |r.outputProperties.Keys| == |r.outputProperties|;
    if property in r.outputProperties {
      assert updated.Keys == r.outputProperties.Keys;
    }
  }

  lemma EraseKeepsProperties(r: Randr, property: AtomId)
    requires PropertiesOk(r) && property in r.outputProperties
    ensures PropertiesOk(r.(outputProperties := r.outputProperties - {property}))
  {
    hide PropertyOk;
    TotalSplit(r.outputProperties, property);
    var updated := r.outputProperties - {property};
    assert updated.Keys == r.outputProperties.Keys - {property};
    assert |updated.Keys| == |updated| && |r.outputProperties.Keys| == |r.outputProperties|;
  }

  lemma ConfiguredOk(r: Randr, property: AtomId, pending: Byte, range: Byte, values: seq<int>)
    requires PropertiesOk(r) && !TableFull(r, property)
    ensures PropertiesOk(r.(outputProperties :=
              r.outputProperties[property := Configured(Current(r, property), pending, range, values)]))
  {
    hide TotalBytes;
    var p := Configured(Current(r, property), pending, range, values);
    TotalUpdate(r.outputProperties, property, p);
    StoreKeepsProperties(r, property, p);
  }

  /** Editing whole units by whole units leaves whole units of one format. */
  lemma EditedIsOk(v: PropertyValue, typ: AtomId, format: nat, mode: Byte, data: seq<Byte>)
    requires ValueOk(v) && ValidFormat(format) && Whole(|data|, Unit(format))
    requires !Mismatched(v, mode, typ, format)
    requires |Edited(v.data, data, mode)| <= MAXIMUM_PROPERTY_BYTES
    ensures ValueOk(PropertyValue(typ, format, Edited(v.data, data, mode)))
  {
    if mode != 0 && v.data != [] {
      WholeSums(|v.data|, |data|, Unit(format));
    }
    hide Whole;
    assert v.data == [] ==> v.data + data == data == data + v.data;
  }

  lemma ChangedOk(r: Randr, property: AtomId, typ: AtomId, format: nat, mode: Byte, data: seq<Byte>)
    requires PropertiesOk(r) && !TableFull(r, property)
    requires ValidFormat(format) && Whole(|data|, Unit(format))
    requires !Mismatched(Target(Current(r, property)), mode, typ, format)
    requires FitsAfter(r, property, typ, format, mode, data)
    ensures PropertiesOk(r.(outputProperties := ChangedTable(r, property, typ, format, mode, data)))
  {
    hide TotalBytes, Edited, Whole;
    var p := Current(r, property);
    EditedIsOk(Target(p), typ, format, mode, data);
    StoreKeepsProperties(r, property, WithTarget(p, PropertyValue(typ, format, Edited(Target(p).data, data, mode))));
  }

  // ---- What a change stores

  /** Old bytes, replaced by new ones, behind them or in front of them. */
  predicate Combined(result: seq<Byte>, stored: seq<Byte>, data: seq<Byte>, mode: Byte) {
    && (mode == 0 ==> result == data)
    && (mode == 1 ==> |result| == |data| + |stored| && result[..|data|] == data && result[|data|..] == stored)
    && (mode == 2 ==> |result| == |stored| + |data| && result[..|stored|] == stored && result[|stored|..] == data)
  }

  /** A change that succeeds gives the value it applies to (the pending one where there
      is one) the request's type and format and replaces its bytes (mode 0), puts the
      canonical ones in front (1) or behind (2). The property's other value, its
      configuration and every other property stay. */
  lemma ChangeStores(s: Screen, world: World, output: Word32, property: AtomId, typ: AtomId, format: Byte, mode: Byte,
                     units: Word32, data: seq<Byte>, order: ByteOrder)
    requires ChangeStep(s, world, output, property, typ, format, mode, units, data, order).1 == Done
    ensures ValidFormat(format) && mode <= 2 && |data| == units * (format / 8)
    ensures var before := s.randr.outputProperties;
            var after :=
              ChangeStep(s, world, output, property, typ, format, mode, units, data, order).0.randr.outputProperties;
            var earlier := if property in before then before[property]
                        else OutputProperty(NO_VALUE, NO_VALUE, [], false, false, false);
            var canonical := Swapped(data, format / 8, order);
            && after.Keys == before.Keys + {property}
            && (forall other :: other in before && other != property ==> after[other] == before[other])
            && var now := after[property];
               && (now.validValues, now.pending, now.range, now.immutable) ==
                  (earlier.validValues, earlier.pending, earlier.range, earlier.immutable)
               && (earlier.pending ==>
                     && now.value == earlier.value && now.pendingValue.typ == typ && now.pendingValue.format == format
                     && Combined(now.pendingValue.data, earlier.pendingValue.data, canonical, mode))
               && (!earlier.pending ==>
                     && now.pendingValue == earlier.pendingValue && now.value.typ == typ && now.value.format == format
                     && Combined(now.value.data, earlier.value.data, canonical, mode))
  {
    hide TotalBytes, Swapped;
    ChangeCommits(s, world, output, property, typ, format, mode, units, data, order);
    hide ChangeStep;
  }

  lemma ChangeCommits(s: Screen, world: World, output: Word32, property: AtomId, typ: AtomId, format: Byte, mode: Byte,
                      units: Word32, data: seq<Byte>, order: ByteOrder)
    requires ChangeStep(s, world, output, property, typ, format, mode, units, data, order).1 == Done
    ensures ValidFormat(format) && mode <= 2 && |data| == DataSize(units, format)
    ensures ChangeStep(s, world, output, property, typ, format, mode, units, data, order).0.randr.outputProperties ==
            ChangedTable(s.randr, property, typ, format, mode, Swapped(data, Unit(format), order))
  {
    hide TotalBytes, Swapped;
  }

  // ---- Replacing a value

  /** Every check of ChangeOutputProperty before the size test passes. */
  predicate ReachesSizeTest(s: Screen, world: World, output: Word32, property: AtomId, typ: AtomId, format: Byte,
                            units: Word32, data: seq<Byte>) {
    && output == OUTPUT_ID && property in world.atoms && typ in world.atoms
    && ValidFormat(format) && |data| == DataSize(units, format)
    && !TableFull(s.randr, property) && !Current(s.randr, property).immutable
  }

  /** The size test compares the new total of all properties with the old size
      of the one being replaced, so a replacement that is otherwise within the
      limits is refused exactly when the total would drop below that size. */
  lemma ReplaceAcceptedIff(s: Screen, world: World, output: Word32, property: AtomId, typ: AtomId, format: Byte,
                           units: Word32, data: seq<Byte>, order: ByteOrder)
    requires PropertiesOk(s.randr) && world.room
    requires ReachesSizeTest(s, world, output, property, typ, format, units, data)
    ensures var others := TotalBytes(s.randr.outputProperties) - |Target(Current(s.randr, property)).data|;
            ChangeStep(s, world, output, property, typ, format, 0, units, data, order).1 == Done <==>
            |data| <= MAXIMUM_PROPERTY_BYTES && others + |data| <= MAXIMUM_SERVER_PROPERTY_BYTES &&
            |Target(Current(s.randr, property)).data| <= others + |data|
  {
    hide TotalBytes, Swapped;
    var canonical := Swapped(data, Unit(format), order);
    var p := Current(s.randr, property);
    TotalUpdate(s.randr.outputProperties, property, WithTarget(p, PropertyValue(typ, format, canonical)));
  }

  /** Putting data in front of a value or behind it is accepted exactly when a value
      that is not empty has the request's type and format and both limits hold. */
  lemma ExtendAcceptedIff(s: Screen, world: World, output: Word32, property: AtomId, typ: AtomId, format: Byte,
                          mode: Byte, units: Word32, data: seq<Byte>, order: ByteOrder)
    requires PropertiesOk(s.randr) && world.room && (mode == 1 || mode == 2)
    requires ReachesSizeTest(s, world, output, property, typ, format, units, data)
    ensures var stored := Target(Current(s.randr, property));
            ChangeStep(s, world, output, property, typ, format, mode, units, data, order).1 == Done <==>
            && (stored.data == [] || (stored.typ == typ && stored.format == format))
            && |stored.data| + |data| <= MAXIMUM_PROPERTY_BYTES
            && TotalBytes(s.randr.outputProperties) + |data| <= MAXIMUM_SERVER_PROPERTY_BYTES
  {
    hide TotalBytes, Swapped;
    var canonical := Swapped(data, Unit(format), order);
    var p := Current(s.randr, property);
    TotalUpdate(s.randr.outputProperties, property,
                WithTarget(p, PropertyValue(typ, format, Edited(Target(p).data, canonical, mode))));
    StoredIsCounted(s.randr, property);
  }

  lemma StoredIsCounted(r: Randr, property: AtomId)
    ensures |Target(Current(r, property)).data| <= TotalBytes(r.outputProperties)
  {
    if property in r.outputProperties {
      TotalSplit(r.outputProperties, property);
    }
  }

  /** Two bytes replaced by one, in a table that holds nothing else. */
  lemma ShrinkingReplaceIsRefused(s: Screen, world: World, property: AtomId, typ: AtomId)
    requires property in world.atoms && typ in world.atoms && world.room
    requires s.randr.outputProperties ==
             map[property := NEW_PROPERTY.(value := PropertyValue(typ, 8, [1, 2]))]
    ensures ChangeStep(s, world, OUTPUT_ID, property, typ, 8, 0, 1, [3], Little).1 == Failed(BadAlloc)
  {
    var r := s.randr;
    TotalSplit(r.outputProperties, property);
    assert r.outputProperties - {property} == map[];
    assert r.outputProperties.Keys == {property};
    assert |r.outputProperties| == 1;
    assert PropertyOk(r.outputProperties[property]);
    ReplaceAcceptedIff(s, world, OUTPUT_ID, property, typ, 8, 1, [3], Little);
  }

  /** Two requests from the initial state reach such a table and meet the refusal. */
  lemma ShrinkingReplaceFromStart(width: Word16, height: Word16, automatic: AtomId, world: World, property: AtomId,
                                  typ: AtomId)
    requires property in world.atoms && typ in world.atoms && world.room
    ensures var s := InitialScreen(width, height, automatic);
            var (s', first) := ChangeStep(s, world, OUTPUT_ID, property, typ, 8, 0, 2, [1, 2], Little);
            && first == Done
            && ChangeStep(s', world, OUTPUT_ID, property, typ, 8, 0, 1, [3], Little).1 == Failed(BadAlloc)
  {
    var s := InitialScreen(width, height, automatic);
    FirstWriteIsStored(s, world, property, typ);
    hide ChangeStep, InitialScreen;
    var s' := ChangeStep(s, world, OUTPUT_ID, property, typ, 8, 0, 2, [1, 2], Little).0;
    ShrinkingReplaceIsRefused(s', world, property, typ);
  }

  lemma FirstWriteIsStored(s: Screen, world: World, property: AtomId, typ: AtomId)
    requires property in world.atoms && typ in world.atoms && world.room && s.randr.outputProperties == map[]
    ensures var (s', first) := ChangeStep(s, world, OUTPUT_ID, property, typ, 8, 0, 2, [1, 2], Little);
            && first == Done
            && s'.randr.outputProperties == map[property := NEW_PROPERTY.(value := PropertyValue(typ, 8, [1, 2]))]
  {
    var table := map[property := NEW_PROPERTY.(value := PropertyValue(typ, 8, [1, 2]))];
    assert ChangedTable(s.randr, property, typ, 8, 0, [1, 2]) == table;
    TotalSplit(table, property);
    assert table - {property} == map[];
    hide TotalBytes, FollowedAll;
  }

  // ---- Reading a value that was never written

  /** A read divides by a zero unit size exactly when it would return a page of
      a value that was configured but never written. */
  lemma ReadDividesByZeroIff(s: Screen, world: World, output: Word32, property: AtomId, requestedType: AtomId,
                             offset: Word32, length: Word32, remove: Byte, pending: Byte, order: ByteOrder)
    requires PropertiesOk(s.randr)
    ensures GetStep(s, world, output, property, requestedType, offset, length, remove, pending, order).1 ==
            DividedByZero <==>
            && output == OUTPUT_ID && property in world.atoms && (requestedType == 0 || requestedType in world.atoms)
            && remove <= 1 && pending <= 1 && offset == 0
            && property in s.randr.outputProperties
            && !(remove == 1 && s.randr.outputProperties[property].immutable)
            && Selected(s.randr.outputProperties[property], pending).format == 0
            && (requestedType == 0 || requestedType == Selected(s.randr.outputProperties[property], pending).typ)
  {
    hide TotalBytes, Committed, PageReply;
    if property in s.randr.outputProperties {
      assert PropertyOk(s.randr.outputProperties[property]);
    }
  }

  /** Configuring a fresh property and reading it back is such a read. */
  lemma ConfigureThenReadDividesByZero(s: Screen, world: World, property: AtomId, length: Word32, order: ByteOrder)
    requires PropertiesOk(s.randr) && property in world.atoms && world.room
    requires property !in s.randr.outputProperties && |s.randr.outputProperties| < MAXIMUM_PROPERTIES
    ensures var s' := ConfigureStep(s, world, OUTPUT_ID, property, 0, 0, []).0;
            PropertiesOk(s'.randr) &&
            GetStep(s', world, OUTPUT_ID, property, 0, 0, length, 0, 0, order).1 == DividedByZero
  {
    hide TotalBytes, PropertiesOk;
    ConfiguredOk(s.randr, property, 0, 0, []);
    CommitKeepsProperties(s, s.randr.(outputProperties := s.randr.outputProperties[property := NEW_PROPERTY]), Silent,
                          world);
    var s' := ConfigureStep(s, world, OUTPUT_ID, property, 0, 0, []).0;
    assert s'.randr.outputProperties == s.randr.outputProperties[property := NEW_PROPERTY];
    ReadDividesByZeroIff(s', world, OUTPUT_ID, property, 0, 0, length, 0, 0, order);
  }

  // ---- Successive pages

  lemma PagesJoin(v: PropertyValue, offset: Word32, length: Word32, order: ByteOrder)
    requires ValueOk(v) && v.format != 0 && offset * 4 <= |v.data|
    ensures var page, unit := PageOf(v.data, offset, length), Unit(v.format);
            Swapped(v.data[..offset * 4 + |page|], unit, order) ==
            Swapped(v.data[..offset * 4], unit, order) + Swapped(page, unit, order)
  {
    WordsAreWhole(|v.data|, offset, offset, Unit(v.format));
    hide Swapped, Whole;
    var page := PageOf(v.data, offset, length);
    assert |v.data[..offset * 4]| == offset * 4;
    assert v.data[..offset * 4 + |page|] == v.data[..offset * 4] + page;
    SwappedConcat(v.data[..offset * 4], page, Unit(v.format), order);
  }
  /** A client with pages to come: the property is there, was written and may be
      read, and removed at the end if asked for, under this type. */
  ghost predicate Readable(s: Screen, world: World, property: AtomId, typ: AtomId, remove: Byte, pending: Byte) {
    && PropertiesOk(s.randr) && property in s.randr.outputProperties
    && property in world.atoms && world.room && remove <= 1 && pending <= 1
    && (typ == 0 || (typ in world.atoms && typ == Selected(s.randr.outputProperties[property], pending).typ))
    && Selected(s.randr.outputProperties[property], pending).format != 0
    && (remove == 1 ==> !s.randr.outputProperties[property].immutable)
  }

  lemma ReadableValue(s: Screen, world: World, property: AtomId, typ: AtomId, remove: Byte, pending: Byte)
    requires Readable(s, world, property, typ, remove, pending)
    ensures ValueOk(Selected(s.randr.outputProperties[property], pending))
  {
    assert PropertyOk(s.randr.outputProperties[property]);
  }

  /** One page: the state moves only when it is the last one and removal is asked for. */
  method ReadPage(server: ServerState, world: World, property: AtomId, typ: AtomId, offset: Word32, length: Word32,
                  remove: Byte, pending: Byte, order: ByteOrder) returns (page: Reply)
    requires Readable(server.Contents(), world, property, typ, remove, pending)
    requires ValueOk(Selected(server.randr.outputProperties[property], pending))
    requires offset * 4 <= |Selected(server.randr.outputProperties[property], pending).data|
    modifies server
    ensures page == PageReply(Selected(old(server.randr).outputProperties[property], pending), offset, length, order)
    ensures if remove == 1 && page.bytesAfter == 0
            then server.randr.outputProperties == old(server.randr).outputProperties - {property}
            else server.Contents() == old(server.Contents())
  {
    hide TotalBytes, Swapped, Whole, ValueOk, PageReply;
    var response := GetOutputProperty(server, world, OUTPUT_ID, property, typ, offset, length, remove, pending, order);
    return response.reply;
  }

  /** The bytes read so far grow by the wire form of the page. */
  lemma NextPage(v: PropertyValue, offset: Word32, length: Word32, order: ByteOrder, data: seq<Byte>)
    requires ValueOk(v) && v.format != 0 && offset * 4 <= |v.data| && 1 <= length
    requires data == Swapped(v.data[..offset * 4], Unit(v.format), order)
    ensures var page := PageReply(v, offset, length, order);
            var next := offset + |page.data| / 4;
            && Whole(|page.data|, Unit(v.format))
            && (page.bytesAfter == 0 ==> data + page.data == Swapped(v.data, Unit(v.format), order))
            && (page.bytesAfter != 0 ==>
                  offset < next && next * 4 <= |v.data| &&
                    data + page.data == Swapped(v.data[..next * 4], Unit(v.format), order))
  {
    PagesJoin(v, offset, length, order);
    PageIsWhole(v, offset, length);
    hide Swapped, Whole;
    var page := PageReply(v, offset, length, order);
    hide ValueOk, Unit;
    if page.bytesAfter == 0 {
      assert v.data[..offset * 4 + |page.data|] == v.data;
    }
  }

  /** A client that asks for page after page until none is left, for any number of
      words each time, of the current or the pending value, removing the
      property with the last page if it wants to, receives the whole value in
      wire form, in whole units, and removes the property only at the end. */
  method ReadAll(server: ServerState, world: World, property: AtomId, typ: AtomId, lengths: nat -> Word32,
                 remove: Byte, pending: Byte, order: ByteOrder) returns (data: seq<Byte>)
    requires Readable(server.Contents(), world, property, typ, remove, pending)
    requires forall n :: 1 <= lengths(n)
    modifies server
    ensures var v := Selected(old(server.randr).outputProperties[property], pending);
            ValidFormat(v.format) && data == Swapped(v.data, Unit(v.format), order)
    ensures if remove == 0 then server.Contents() == old(server.Contents())
            else server.randr.outputProperties == old(server.randr).outputProperties - {property}
  {
    ReadableValue(server.Contents(), world, property, typ, remove, pending);
    ghost var before := server.Contents();
    ghost var v := Selected(server.randr.outputProperties[property], pending);
    EmptySwap(Unit(v.format), order);
    hide Swapped, Whole, PageReply, Readable, Selected, ValueOk, ValidFormat, Unit;
    data := [];
    var offset: nat := 0;
    var n := 0;
    while true
      invariant server.Contents() == before && offset * 4 <= |v.data|
      invariant data == Swapped(v.data[..offset * 4], Unit(v.format), order)
      decreases |v.data| - offset * 4
    {
      NextPage(v, offset, lengths(n), order, data);
      var page := ReadPage(server, world, property, typ, offset, lengths(n), remove, pending, order);
      data := data + page.data;
      if page.bytesAfter == 0 {
        return;
      }
      offset := offset + |page.data| / 4;
      n := n + 1;
    }
  }

  // ---- A change, on the wire

  lemma ChangePasses(s: Screen, world: World, property: AtomId, typ: AtomId, format: Byte, mode: Byte, units: Word32,
                     data: seq<Byte>, order: ByteOrder)
    requires ChangeStep(s, world, OUTPUT_ID, property, typ, format, mode, units, data, order).1 == Done
    ensures ValidFormat(format) && Whole(|data|, Unit(format)) && !TableFull(s.randr, property)
    ensures !Mismatched(Target(Current(s.randr, property)), mode, typ, format)
    ensures FitsAfter(s.randr, property, typ, format, mode, Swapped(data, Unit(format), order))
  {
    hide TotalBytes, Swapped, Committed, FitsAfter;
    UnitsAreWhole(units, format);
  }

  lemma ChangeKeepsReadable(s: Screen, world: World, property: AtomId, typ: AtomId, format: Byte, mode: Byte,
                            units: Word32, data: seq<Byte>, order: ByteOrder)
    requires Readable(s, world, property, 0, 0, 1)
    requires ChangeStep(s, world, OUTPUT_ID, property, typ, format, mode, units, data, order).1 == Done
    ensures Readable(ChangeStep(s, world, OUTPUT_ID, property, typ, format, mode, units, data, order).0, world,
                     property, 0, 0, 1)
  {
    hide TotalBytes, Swapped, Whole, PropertiesOk, FitsAfter;
    var canonical := Swapped(data, format / 8, order);
    ChangePasses(s, world, property, typ, format, mode, units, data, order);
    ChangedOk(s.randr, property, typ, format, mode, canonical);
    var candidate := s.randr.(outputProperties := ChangedTable(s.randr, property, typ, format, mode, canonical));
    CommitKeepsProperties(s, candidate, PropertyChange, world);
  }

  lemma WireOfCombined(result: seq<Byte>, stored: seq<Byte>, data: seq<Byte>, mode: Byte, unit: nat, order: ByteOrder)
    requires Whole(|data|, unit) && Whole(|stored|, unit) && 0 < unit && mode <= 2
    requires Combined(result, stored, Swapped(data, unit, order), mode)
    ensures Swapped(result, unit, order) ==
            if mode == 0 then data
            else if mode == 1 then data + Swapped(stored, unit, order) else Swapped(stored, unit, order) + data
  {
    hide Swapped, Whole;
    var canonical := Swapped(data, unit, order);
    SwappedTwice(data, unit, order);
    if mode == 1 {
      assert result == canonical + stored;
      SwappedConcat(canonical, stored, unit, order);
    } else if mode == 2 {
      assert result == stored + canonical;
      SwappedConcat(stored, canonical, unit, order);
    }
  }

  /** The two values of the same property, before and after. */
  lemma CombinedOnWire(s: Screen, world: World, property: AtomId, typ: AtomId, format: Byte, mode: Byte,
                       units: Word32, data: seq<Byte>, order: ByteOrder)
    requires Readable(s, world, property, 0, 0, 1)
    requires ChangeStep(s, world, OUTPUT_ID, property, typ, format, mode, units, data, order).1 == Done
    ensures var s' := ChangeStep(s, world, OUTPUT_ID, property, typ, format, mode, units, data, order).0;
            && property in s'.randr.outputProperties
            && var earlier, now := Selected(s.randr.outputProperties[property], 1),
                                   Selected(s'.randr.outputProperties[property], 1);
               && ValidFormat(earlier.format) && now.format == format && ValidFormat(format)
               && var before := Swapped(earlier.data, Unit(earlier.format), order);
                  Swapped(now.data, Unit(format), order) ==
                  if mode == 0 then data else if mode == 1 then data + before else before + data
  {
    hide TotalBytes, Swapped, Whole, PropertiesOk, FitsAfter, Combined;
    ReadableValue(s, world, property, 0, 0, 1);
    ChangePasses(s, world, property, typ, format, mode, units, data, order);
    ChangeStores(s, world, OUTPUT_ID, property, typ, format, mode, units, data, order);
    var s' := ChangeStep(s, world, OUTPUT_ID, property, typ, format, mode, units, data, order).0;
    hide ChangeStep;
    var earlier := Selected(s.randr.outputProperties[property], 1);
    var now := Selected(s'.randr.outputProperties[property], 1);
    if mode == 0 || earlier.data == [] {
      EmptySwap(Unit(earlier.format), order);
      EmptySwap(Unit(format), order);
      NoStored(now.data, earlier.data, Swapped(data, Unit(format), order), mode);
      SwappedTwice(data, Unit(format), order);
      assert data + [] == data && [] + data == data;
    } else {
      WireOfCombined(now.data, earlier.data, data, mode, Unit(format), order);
    }
  }

  lemma NoStored(result: seq<Byte>, stored: seq<Byte>, data: seq<Byte>, mode: Byte)
    requires Combined(result, stored, data, mode) && mode <= 2 && (mode == 0 || stored == [])
    ensures result == data
  {
  }

  /** On the wire: a client that reads a value, changes it with data of its own
      order and reads it again gets its data (mode 0), its data and the old bytes
      (1), or the old bytes and its data (2). */
  method ChangeThenRead(server: ServerState, world: World, property: AtomId, typ: AtomId, format: Byte, mode: Byte,
                        units: Word32, data: seq<Byte>, order: ByteOrder, lengths: nat -> Word32)
    returns (before: seq<Byte>, response: Response, after: seq<Byte>)
    requires Readable(server.Contents(), world, property, 0, 0, 1) && (forall n :: 1 <= lengths(n))
    modifies server
    ensures response == Done ==>
              after == if mode == 0 then data else if mode == 1 then data + before else before + data
  {
    ghost var s := server.Contents();
    ghost var stored := Selected(s.randr.outputProperties[property], 1);
    ReadableValue(s, world, property, 0, 0, 1);
    hide ChangeStep, Swapped, Whole, Committed, TotalBytes;
    before := ReadAll(server, world, property, 0, lengths, 0, 1, order);
    response := ChangeOutputProperty(server, world, OUTPUT_ID, property, typ, format, mode, units, data, order);
    after := [];
    if response == Done {
      ChangeStores(s, world, OUTPUT_ID, property, typ, format, mode, units, data, order);
      ChangeKeepsReadable(s, world, property, typ, format, mode, units, data, order);
      after := ReadAll(server, world, property, 0, lengths, 0, 1, order);
      CombinedOnWire(s, world, property, typ, format, mode, units, data, order);
    }
  }
}
