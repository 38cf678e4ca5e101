# Verification model of Xmin

Xmin is a small X11 server with a controller program. This project models the
algorithms and state machines that carry its weight, in Dafny, and proves what
they are for: lines and polygons that cover the right pixels, a glob matcher,
the RANDR state machine, the client's reply queues, the server's dispatch loop,
GLX bookkeeping, image views and their staging copies, shared-memory images,
text requests and tiled captures.

Code that changes state is a class or a method with loops, proved against a
specification function; what the code is meant to guarantee is proved about
those functions, over every input and every run. Nothing here runs the program.

## Modules

| file | models |
|---|---|
| `Raster`, `Dashes`, `Line`, `Fill`, `EdgeRule`, `Polygon` | scan conversion in `core_raster.cpp` and SetDashes |
| `FontNames` | the glob matcher and font lookup in `font.cpp` |
| `Wire`, `PropertyData` | byte streams and property conversion |
| `CyclicIds` | the wrapping search for an unused id that RANDR and GLX share |
| `RandrState` ... `RandrMonitorLaws`, `RandrEffects` | the RANDR handler, its invariant, its runs and its findings, and what each request does in the terms of the protocol. `RandrSettings` and some members of the other files hold handlers that only complete the set of requests: SelectInput, SetScreenConfig, SetCrtcGamma, SetCrtcTransform (any matrix and filter, at most 64 parameters), SetPanning (any twelve values), SetOutputPrimary and DeleteOutputProperty |
| `ReplyDemux`, `ReplyBytes` | the client's reply, error and event queues in `xmin_client.cpp`, over packets and over bytes |
| `ServerLoop` | accept, dispatch and removal in `server.cpp` |
| `GlxState`, `GlxClient`, `GlxLaws`, `GlxEffects` | GLX contexts, drawables and bindings |
| `ImageView`, `Staging`, `GlyphRuns`, `GlyphRunLaws` | picture views, staging copies and glyph placement in `render.cpp` |
| `Shm`, `SharedImage` | MIT-SHM GetImage, also from a pixmap in its own segment |
| `PolyText`, `PolyTextLaws` | PolyText8 and PolyText16 |
| `Capture`, `Pixels` | tiled capture and pixel reading in `xminctl.cpp` |
| `Options`, `Arith`, `Maps` | an option type; products and quotients; maps with one entry more or less |

## Findings

Where the code falls short of the property it is meant to have, the model keeps
the code's behaviour, gives an input that shows it, and states exactly when the
property holds.

- src/server/raster_protocol.cpp:101-103: SetDashes copies any list into an array
  of 512 entries. It stays inside the array exactly when the (doubled, if odd)
  list fits or a zero is met first: `Dashes.GraphicsContext.SetDashes`, with
  `Dashes.LongListLeavesTheArray`.
- src/server/font.cpp:26-36: the glob matcher compares literally before it looks
  for a star, so a value that contains `*` can be missed
  (`FontNames.LiteralStarIsMissed`). It never accepts wrongly
  (`FontNames.Matches`); it is right about every pattern exactly for the values
  without a star (`FontNames.ValueIff`), and about every value exactly for the
  patterns without one (`FontNames.PatternIff`). No caller passes a value with a
  star: no font name has one (`FontNames.NamesHaveNoStars`), and font matching is
  exact for every pattern (`FontNames.MatchesFont`).
- src/server/randr_protocol.cpp:671-673: ChangeOutputProperty in Replace mode
  compares the new total of all properties with the old size of one, and so
  refuses some replacements by less data: `RandrPropertyLaws.ReplaceAcceptedIff`,
  with `ShrinkingReplaceFromStart`.
- src/server/randr_protocol.cpp:778-779: GetOutputProperty divides by the format of
  a property that was configured but never written, which is 0:
  `RandrPropertyLaws.ReadDividesByZeroIff`, with `ConfigureThenReadDividesByZero`.
- src/server/randr_protocol.cpp:1019-1062: SetMonitor and DeleteMonitor keep
  automatic and user monitors apart, but SetCrtcConfig can bring them together
  again, and can light an output that no monitor covers:
  `RandrMonitorLaws.LightingIff`, with `RelightingShares` and
  `RelightingUncovers`.
- src/server/font_protocol.cpp:644-647: a PolyText request for a drawable that
  cannot be drawn on is answered with one error for each of its strings, not one,
  and with one more at the end when the drawable does not exist:
  `PolyText.OneErrorPerString`, `PolyText.TextPainter.PolyText`, with
  `PolyText.TwoStringsThreeErrors`.
- src/control/xminctl.cpp:927: a tiled capture higher than 32768 rows gives nothing
  unless its last tile starts below row 32768, because the row number is cut to 16
  signed bits: `Capture.TilesAreTheImage`, with `Capture.TallImageFails`.
- src/server/shm_protocol.cpp:245-262: the fast SHM copy and the general one agree
  exactly when the storage shows no plane above its depth:
  `Shm.FastEqualsGenericIff`, with `Shm.UnmaskedStorageShows`.
- src/server/shm_protocol.cpp:245-296: GetImage from a pixmap in the segment it is
  read into need not give the image. On a little-endian host it does, whatever the
  memory holds, exactly when no pixel is read from what was written before it
  (`SharedImage.LittleIff`, with `ShiftedCopySpreads`); on a big-endian host
  exactly when the pixmap lies outside the range written (`SharedImage.BigIff`,
  with `ZeroedPixmapIsLost`).
- src/control/xmin_client.cpp:492-495: a reply announced larger than 16 MiB fails
  the read but leaves its body unread, and a later wait takes the body for
  packets. Only packets of the server are handed over exactly when none announces
  more: `ReplyBytes.OversizedIff`, with `ReplyBytes.BodyIsHandedOver`.
- src/server/core_raster.cpp:254-262: spans are closed at both ends, so a pixel whose
  centre lies on an edge is stored once for every closed span that holds it:
  `Polygon.FillPolygon`, with `Polygon.CrossedStoresTwice`.
- src/control/xminctl.cpp:800: scaling a colour channel to 255 wraps in 32 bits for
  nearly all masks that span 25 bits or more: all of a mask reads as 255 exactly
  when the sum does not wrap: `Pixels.FullIntensityIff`, with
  `Pixels.WideMaskIsDimmed`.
- src/server/render.cpp:841-860: the box around the glyphs of a mask starts from the
  extremes of 32 bits, so glyphs without extent beyond them are answered as too
  large instead of as nothing to draw: `GlyphRuns.SeenMattersIff`, with
  `GlyphRuns.FarOutIsRefused`.

## Model

| member | source | states |
|---|---|---|
| Dashes.LineSource | src/server/core_raster.cpp:49-70 | for every phase the walk ends and draws foreground in even segments, and background (double dash) or nothing (on-off) in odd ones |
| Dashes.ResidueIsRemainder | src/server/core_raster.cpp:55-63 | the offset walked to is the remainder of phase plus dash offset by the pattern length |
| Dashes.SegmentAtBounds | src/server/core_raster.cpp:57-63 | the segment found is the one whose bounds enclose the offset |
| Dashes.PatternSumPositive | src/server/raster_protocol.cpp:91-105 | a well-formed record's pattern has positive length, so the walk always ends |
| Dashes.EvenAlternates | src/server/core_raster.cpp:57-69 | an even list's segments have the parity of their number along the endless repetition |
| Dashes.OddAlternates | src/server/raster_protocol.cpp:91-105 | an odd list doubled has the parity of the list repeated endlessly, as section 9 (SetDashes) of the X11 Protocol asks |
| Dashes.DoubledAlternates | src/server/raster_protocol.cpp:91-105 | what SetDashes installs alternates along the repetition of the client's own list, even or odd |
| Dashes.DashesFollowTheList | src/server/core_raster.cpp:49-70 | for every list that the pattern stands for: a solid line is drawn in the foreground everywhere, a dashed one exactly where phase plus offset falls in an even segment of the list repeated without end, and elsewhere in the background (double dash) or not at all |
| Dashes.StoreDashes | src/server/raster_protocol.cpp:94-104 | the loop stores the list, twice over if odd, refuses a zero, and leaves the array exactly under the stated condition |
| Dashes.GraphicsContext.SetDashes | src/server/raster_protocol.cpp:61-107 | installs exactly the nonempty zero-free lists that fit; an error changes nothing; stores outside the 512-entry array exactly under the stated condition |
| Dashes.LongListLeavesTheArray | src/server/raster_protocol.cpp:101-103 | a list of 257 ones makes the handler store outside the array |
| Dashes.GraphicsContext.ChangeDashLength | src/server/connection.cpp:3957-3963 | accepts exactly 1 to 255 and installs that length twice |
| Line.DrawLine | src/server/core_raster.cpp:137-172 | every pixel is stored once for each point of the line whose square of the line width holds it and which the dashes of the client's list draw, in that point's own source, nothing else is stored, and the phase advances by the number of points |
| Line.LineIsFaithful | src/server/core_raster.cpp:137-172 | both endpoints are visited, point k is k pixels along the longer axis and within half a pixel of the ideal line, in every octant |
| Line.LineStep | src/server/core_raster.cpp:162-170 | one iteration keeps the error term and the half-pixel bound |
| Line.AtStepIsIdeal | src/server/core_raster.cpp:151-171 | the loop's position is the rounded ideal position and equals the end only at the last step |
| Line.IdealIsCoordinate | src/server/core_raster.cpp:152-156 | no point leaves the endpoints' bounding box, so the 32-bit test drops none |
| Line.DrawBrush | src/server/core_raster.cpp:72-91 | stores the clipped square of the line width |
| Line.BrushStores | src/server/core_raster.cpp:72-91 | a brush stores each on-surface pixel of its square once and no other |
| Line.StoresOfPoints | src/server/core_raster.cpp:137-172 | how often a store is made is the number of points that make it |
| Fill.NegativeRemainder | src/server/core_raster.cpp:15-20 | the corrected truncating remainder is the mathematical one, also for negative values |
| Fill.PixmapRepeats | src/server/core_raster.cpp:22-47 | a tile or stipple repeats in both directions from its origin |
| Fill.PixmapTilesThePlane | src/server/core_raster.cpp:22-47 | at each place of every copy of a tile or stipple laid out from the origin, the source is that pixmap's own pixel there, or what its bit selects |
| Fill.FillPixel | src/server/core_raster.cpp:22-47 | stores the tile, stipple or foreground source, or nothing where a plain stipple is clear |
| Polygon.ClosedPolygonBalances | src/server/core_raster.cpp:224-233 | for every vertex list and row the signed crossings sum to zero and are even in number |
| Polygon.CrossingSign | src/server/core_raster.cpp:227-232 | an edge crosses a row exactly when its ends are on different sides, with the sign of the change |
| Polygon.CrossingIsOnEdge | src/server/core_raster.cpp:229-230 | a crossing lies on the line through its edge's ends |
| Polygon.CrossingSide | src/server/core_raster.cpp:227-230 | an edge crosses a row exactly when it straddles the row's centre, and left of a pixel's centre exactly when the integer cross product says so |
| Polygon.CrossingsAreEdges | src/server/core_raster.cpp:222-233 | number and signed sum of the crossings left of a centre are those of the edges that pass there, counted by cross products |
| Polygon.CollectCrossings | src/server/core_raster.cpp:222-233 | gathers exactly the row's crossings |
| Polygon.SortCrossings | src/server/core_raster.cpp:234-237 | the sorted crossings are ordered by x and are the same crossings |
| Polygon.SweepRow | src/server/core_raster.cpp:238-264 | a row stores each pixel once for every closed span that holds its centre, which off the edges is once exactly while parity or winding says inside |
| Polygon.RowIsPolygonRow | src/server/core_raster.cpp:221-264 | a swept row stores each off-edge pixel once exactly when it is inside the polygon by the fill rule |
| Polygon.FillPolygon | src/server/core_raster.cpp:206-266 | every pixel of the surface whose centre is on no edge is stored exactly once if the number (even-odd) or the signed number (winding) of edges that pass left of its centre, by integer cross products, says inside and the stipple lets it through, never otherwise; a pixel on an edge once for every closed span that holds it; nothing off the surface |
| Polygon.CrossedStoresTwice | src/server/core_raster.cpp:254-262 | two triangles whose sides cross at a pixel's centre store that pixel twice |
| Polygon.DegeneratePolygon | src/server/core_raster.cpp:210-211 | with fewer than three vertices nothing off the edges is inside |
| FontNames.LiteralMeaning | src/server/font.cpp:12-30 | a pattern without stars means the values of its length that agree letter by letter, without regard to case, except at question marks |
| FontNames.StarMeaning | src/server/font.cpp:32-40 | up to its first star a pattern means the beginning of a value, and behind it any end of the value |
| FontNames.Matches | src/server/font.cpp:18-48 | terminates; accepts only what the pattern means, and all it means when one side has no star |
| FontNames.RetryIsRedundant | src/server/font.cpp:32-40 | once a later star is reached, giving the earlier one more cannot help |
| FontNames.PlainIsDecided | src/server/font.cpp:18-48 | without a star on one side the loop decides the meaning of the pattern |
| FontNames.ValueIff | src/server/font.cpp:24-44 | for every value, the loop is right about all patterns exactly when the value contains no star |
| FontNames.PatternIff | src/server/font.cpp:24-44 | for every pattern, the loop is right about all values exactly when the pattern contains no star |
| FontNames.LiteralStarIsMissed | src/server/font.cpp:26-36 | a value with a star that the pattern means and the matcher refuses |
| FontNames.NamesHaveNoStars | src/server/font.cpp:50-73 | no name of an embedded font contains a star |
| FontNames.MatchesFont | src/server/font.cpp:50-75 | true exactly when the pattern means one of the font's names |
| FontNames.ListFonts | src/server/font.cpp:94-106 | the first fonts, in order, that the pattern means, up to the maximum |
| FontNames.FindFont | src/server/font.cpp:84-92 | opens the font that a listing would name first |
| Wire.Decode32Inverts | src/server/wire.cpp:34-52 | reading and writing 32 bits are mutual inverses in either order |
| Wire.OppositeOrders32 | src/server/wire.cpp:34-52 | the two orders read each other's bytes reversed |
| PropertyData.CanonicalPropertyData | src/server/property_data.cpp:5-32 | converts unit by unit to canonical order, and refuses exactly data that ends inside a unit |
| PropertyData.WirePropertyData | src/server/property_data.cpp:34-59 | converts whole units to the connection's order |
| PropertyData.SwappedTwice | src/server/property_data.cpp:5-59 | the two conversions undo each other for each byte order |
| PropertyData.SwappedAt | src/server/property_data.cpp:5-59 | where each byte of a converted unit comes from, in either order |
| PropertyData.SwappedConcat | src/server/property_data.cpp:34-59 | converting unit-aligned pieces and joining them converts the whole |
| CyclicIds.SearchIsShort | src/server/randr_protocol.cpp:848-852 | pigeonhole: a wrapping search meets a free nonzero id before it has tried every used one |
| CyclicIds.SearchEnds | src/server/randr_protocol.cpp:848-852 | the id found is the first free one from the counter on |
| RandrModes.SkipUsedIds | src/server/randr_protocol.cpp:848-852 | the fresh mode id is nonzero, unused and first in cyclic order |
| RandrModes.CreateMode | src/server/randr_protocol.cpp:793-883 | each refusal in order, or the mode entered under a fresh id |
| RandrModes.DestroyMode | src/server/randr_protocol.cpp:884-906 | refuses unknown, listed and current modes; removes one otherwise |
| RandrModes.ChangeOutputMode | src/server/randr_protocol.cpp:907-944 | adds a mode to the output's list once, or removes one that is not current |
| RandrModes.SetCrtcConfig | src/server/randr_protocol.cpp:980-1072 | turns the CRTC off, or shows a listed mode that lies inside the screen |
| RandrModes.SetScreenSize | src/server/randr_protocol.cpp:363-396 | resizes only when the shown mode still fits |
| RandrState.ServerState.CommitRandrState | src/server/server_state.cpp:3249-3273 | installs a candidate whole, with stamped times and automatic monitors following the CRTC, or nothing |
| RandrState.ServerState.ResizeRandrScreen | src/server/server_state.cpp:3275-3359 | installs a candidate and the new size together, or nothing |
| RandrProperties.OutputPropertyBytes | src/server/randr_protocol.cpp:65-80 | the total counts the current and pending bytes of every property |
| RandrProperties.ConfigureOutputProperty | src/server/randr_protocol.cpp:543-593 | the checks in order, then one property configured |
| RandrProperties.ChangeOutputProperty | src/server/randr_protocol.cpp:594-678 | the checks in order, then replaced, prepended or appended canonical data under the size test |
| RandrProperties.GetOutputProperty | src/server/randr_protocol.cpp:702-792 | one page in wire form with what remains, removal only with the last page |
| RandrProperties.PageIsWhole | src/server/randr_protocol.cpp:757-769 | every page is a whole number of the value's units |
| RandrPropertyLaws.ReadAll | src/server/randr_protocol.cpp:702-792 | successive pages, each of any length of at least one word, of the current or the pending value, join to the wire form of the whole value, removed only at the end |
| RandrPropertyLaws.ReadPage | src/server/randr_protocol.cpp:757-791 | one page is the next piece in wire form, and the state moves only for a removal with the last page |
| RandrPropertyLaws.ChangedOk | src/server/randr_protocol.cpp:623-677 | a change keeps data unit-aligned, of one format, and the total within its limit |
| RandrPropertyLaws.ChangeStores | src/server/randr_protocol.cpp:623-677 | a change that succeeds gives the pending value, where there is one, or else the value the request's type and format and replaces its bytes, puts the canonical data in front or puts it behind; the other value, the configuration and all other properties stay |
| RandrPropertyLaws.ChangeThenRead | src/server/randr_protocol.cpp:594-792 | on the wire: reading, changing and reading again gives the data, the data and the old bytes, or the old bytes and the data, by the mode |
| RandrPropertyLaws.ExtendAcceptedIff | src/server/randr_protocol.cpp:640-675 | when exactly data may be put in front of a value or behind it |
| RandrPropertyLaws.ReplaceAcceptedIff | src/server/randr_protocol.cpp:652-675 | when exactly a replacement passes the size test |
| RandrPropertyLaws.ShrinkingReplaceIsRefused | src/server/randr_protocol.cpp:652-675 | two bytes cannot be replaced by one in an otherwise empty table |
| RandrPropertyLaws.ShrinkingReplaceFromStart | src/server/randr_protocol.cpp:594-678 | two requests from the initial state reach such a table and meet the refusal |
| RandrPropertyLaws.ReadDividesByZeroIff | src/server/randr_protocol.cpp:702-792 | when exactly a read divides by a zero unit size |
| RandrPropertyLaws.ConfigureThenReadDividesByZero | src/server/randr_protocol.cpp:543-593 | configuring a fresh property and reading it is such a read |
| RandrMonitors.SetMonitor | src/server/randr_protocol.cpp:1455-1547 | the checks in order, then one monitor, taking its output from covered automatic ones |
| RandrMonitors.DeleteMonitor | src/server/randr_protocol.cpp:1548-1585 | refuses unknown and automatic monitors; otherwise removes one and puts the automatic one back when needed |
| RandrRequests.Handle | src/server/randr_protocol.cpp:215-1585 | the handler moves the state and answers as the state machine does, for every state-changing request |
| RandrRequests.ErrorsChangeNothing | src/server/randr_protocol.cpp:123-131 | every request answered with an error leaves the whole RANDR state and the screen size unchanged |
| RandrRuns.StepKeeps | src/server/randr_protocol.cpp:215-1585 | every request keeps the invariant of modes, monitors, properties and ramps |
| RandrRuns.InitiallyOk | src/server/server_state.cpp:503-535 | the initial state satisfies the invariant |
| RandrRuns.ReachableModes | src/server/randr_protocol.cpp:363-1072 | in every reachable state names are unique, ids nonzero, the table bounded, the output list duplicate-free over existing modes, and the current mode off or listed and inside the screen |
| RandrMonitorLaws.MonitorRuns | src/server/randr_protocol.cpp:1455-1585 | along any run of SetMonitor and DeleteMonitor no automatic monitor shares the output with a user monitor, the lit output stays covered and the list bounded |
| RandrMonitorLaws.SetMonitorKeepsApart | src/server/randr_protocol.cpp:1481-1546 | from any good state, SetMonitor keeps them apart and a covered lit output covered |
| RandrMonitorLaws.DeleteMonitorKeepsApart | src/server/randr_protocol.cpp:1560-1584 | so does DeleteMonitor |
| RandrMonitorLaws.LightingIff | src/server/randr_protocol.cpp:1019-1062 | when exactly turning the CRTC on keeps monitors apart, and when it lights a covered output |
| RandrMonitorLaws.RelightingShares | src/server/server_state.cpp:262-305 | off, SetMonitor, on: the automatic monitor shares the output with the user's |
| RandrMonitorLaws.RelightingUncovers | src/server/server_state.cpp:262-305 | a run that lights an output no monitor covers |
| RandrEffects.CommitReconfigures | src/server/server_state.cpp:262-305 | a configuration commit keeps the candidate, stamps the times, leaves user monitors alone and lets automatic ones show the CRTC's rectangle with its share of the millimetres, or nothing while it is off |
| RandrEffects.CreateModeEffect | src/server/randr_protocol.cpp:793-883 | when exactly a mode is created, and the table afterwards: the old one with the mode under a new nonzero id |
| RandrEffects.DestroyModeEffect | src/server/randr_protocol.cpp:884-906 | when exactly a mode is destroyed, and that nothing else goes |
| RandrEffects.CreateThenDestroyMode | src/server/randr_protocol.cpp:793-906 | a created mode can be destroyed, which restores the table |
| RandrEffects.AddOutputModeEffect | src/server/randr_protocol.cpp:907-944 | when exactly a mode is listed, once, at the end |
| RandrEffects.DeleteOutputModeEffect | src/server/randr_protocol.cpp:907-944 | when exactly a mode is taken off the list, and that only its first place goes |
| RandrEffects.SetCrtcConfigEffect | src/server/randr_protocol.cpp:980-1072 | when exactly the CRTC is set, that it then has that mode and place, and that a stale time changes nothing |
| RandrEffects.SetScreenSizeEffect | src/server/randr_protocol.cpp:363-396 | when exactly the screen is resized, from a state whose lit mode lies on it, and to exactly the sizes asked for |
| RandrEffects.SetMonitorEffect | src/server/randr_protocol.cpp:1455-1547 | when exactly a monitor is set; it is stored as asked, user monitors stay, automatic ones with one of its outputs go, and a primary one takes the flag from all others |
| RandrEffects.DeleteMonitorEffect | src/server/randr_protocol.cpp:1548-1585 | when exactly a monitor is deleted, that the others stay, and when an automatic one takes its place |
| RandrEffects.SetOutputPrimaryEffect | src/server/randr_protocol.cpp:1294-1318 | exactly the monitors that show the output become primary |
| RandrEffects.SetGammaEffect | src/server/randr_protocol.cpp:1104-1133 | the three ramps, one behind the other, are what was sent |
| RandrEffects.SetScreenConfigEffect | src/server/randr_protocol.cpp:215-287 | when exactly a screen configuration is taken, and which status a stale time gets, on a clock that wraps |
| RandrEffects.TransformAndPanningEffect | src/server/randr_protocol.cpp:1134-1293 | when exactly a transform or panning is taken, and that it is stored as sent |
| RandrEffects.SelectInputEffect | src/server/randr_protocol.cpp:288-302 | a client has exactly the mask it asked for on the window, and all other entries stay |
| RandrEffects.ConfigureEffect | src/server/randr_protocol.cpp:543-593 | when exactly a property is configured, and all its fields afterwards |
| RandrEffects.DeletePropertyEffect | src/server/randr_protocol.cpp:679-701 | when exactly a property is deleted, and that only it goes |
| RandrEffects.GetPropertyEffect | src/server/randr_protocol.cpp:702-792 | what a read answers for an unknown property, another type, an offset beyond the end and a page, and when the property goes |
| RandrEffects.ModeErrors | src/server/randr_protocol.cpp:793-944 | which error the mode requests report, when several apply |
| RandrEffects.CrtcErrors | src/server/randr_protocol.cpp:980-1062 | which error SetCrtcConfig reports |
| RandrEffects.ScreenSizeErrors | src/server/randr_protocol.cpp:363-396 | which error SetScreenSize reports |
| RandrEffects.MonitorErrors | src/server/randr_protocol.cpp:1455-1585 | which error the monitor requests report |
| RandrEffects.ChangePropertyErrors | src/server/randr_protocol.cpp:594-651 | which error ChangeOutputProperty reports |
| ReplyDemux.InOrderDistinct | src/control/xmin_client.cpp:171-179 | with fewer than 65536 requests no two responses share a 16-bit number |
| ReplyDemux.ClientConnection.Send | src/control/xmin_client.cpp:171-179 | numbers the next request, or fails and sends nothing |
| ReplyDemux.ClientConnection.ReadOne | src/control/xmin_client.cpp:481-511 | files one packet, or fails at the end of the stream or on an oversized body, and keeps the invariant |
| ReplyDemux.ClientConnection.FilePacket | src/control/xmin_client.cpp:481-511 | errors and replies go under their number, everything else behind the events |
| ReplyDemux.ClientConnection.WaitReply | src/control/xmin_client.cpp:181-203 | hands over exactly the server's reply or error for that request, at once and even after a failure if it is held, and on a sound stream fails only when there is none left |
| ReplyDemux.ClientConnection.Check | src/control/xmin_client.cpp:205-217 | returns an error exactly when the server raised one for the target that was not yet handed over |
| ReplyDemux.ClientConnection.PollEvent | src/control/xmin_client.cpp:239-258 | takes the oldest event held, or reads one packet and gives it if it is an event; events come out in arrival order |
| ReplyDemux.ReadPartition | src/control/xmin_client.cpp:481-511 | every response read is in exactly one place: handed over, held as a reply or held as an error |
| ReplyDemux.SyncReadsAll | src/control/xmin_client.cpp:205-217 | once the synchronising reply is read, so is every earlier response |
| ReplyBytes.ByteClient.ReadPacket | src/control/xmin_client.cpp:481-511 | one packet read from the bytes and filed; on a failure, which bytes stay unread |
| ReplyBytes.ByteClient.WaitReply | src/control/xmin_client.cpp:181-203 | what is held first, then packet after packet, also on a connection that has failed |
| ReplyBytes.PacketIsFiled | src/control/xmin_client.cpp:481-511 | a whole packet at the head of the bytes is read whole and filed by its kind: an error or a reply under its number, anything else behind the events |
| ReplyBytes.WaitFindsFirst | src/control/xmin_client.cpp:181-203 | on a stream of whole packets a wait hands over the first reply or error with its number, queues the events before it in order and leaves everything behind it unread |
| ReplyBytes.OversizedIff | src/control/xmin_client.cpp:488-502 | for every header, later waits hand over nothing but the server's packet, whatever its body, exactly when the header announces at most 16 MiB |
| ReplyBytes.BodyIsHandedOver | src/control/xmin_client.cpp:488-502 | a larger announcement whose body is handed over as the reply to request 7 |
| ReplyDemux.ClientConnection.GenerateId | src/control/xmin_client.cpp:269-275 | the counter, cut to the client's mask, above its base |
| ReplyDemux.IdsRepeat | src/control/xmin_client.cpp:269-275 | two ids are equal exactly when a whole number of mask-sized rounds lies between them |
| ServerLoop.BlocksAreDisjoint | src/server/server.cpp:263-265 | the id blocks of different slots share no id, and their ids are nonzero and below 2^28 |
| ServerLoop.ConsistentBlocks | src/server/server.cpp:263-265 | the id blocks of any two clients of a consistent state are disjoint |
| ServerLoop.Server.FreeSlot | src/server/server.cpp:144-151 | the lowest free slot, if any |
| ServerLoop.Server.Accept | src/server/server.cpp:250-278 | prepared connections join behind the others while a slot is free, each in the lowest free one, and nobody is disturbed |
| ServerLoop.ClientsFit | src/server/server.cpp:209-211 | there are never more clients than slots, and as many exactly when every slot is used |
| ServerLoop.SortByPriority | src/server/server.cpp:285-295 | non-increasing priority, ties in connection order |
| ServerLoop.StableOrderIsPermutation | src/server/server.cpp:285-296 | such an order names every polled client exactly once |
| ServerLoop.Server.TakeTurn | src/server/server.cpp:297-343 | one loop body: exactly when the client is flushed and read, from which state, and exactly when it is to be removed |
| ServerLoop.TurnFacts | src/server/server.cpp:297-343 | a turn touches no client while another holds the grab, leaves that grab alone, and flags marked or finished clients; what a read does to grab, marks and end stands after it |
| ServerLoop.Server.Dispatch | src/server/server.cpp:284-343 | each polled client takes exactly one turn by priority from the state the turns before left, and the flags are the turns' verdicts |
| ServerLoop.GrabLastsTheRound | src/server/server.cpp:298-300 | a grab held after its holder's turn, even one taken in it, lasts for the round |
| ServerLoop.GrabWaitsForItsHolder | src/server/server.cpp:298-300 | a grab held when the round starts stands until its holder's turn, and nobody before it is flushed or read |
| ServerLoop.NobodyBehindTheGrab | src/server/server.cpp:296-343 | in a whole round no client behind the grab's holder is flushed or read |
| ServerLoop.MarksStand | src/server/server.cpp:339-342 | a termination mark stands, and flags its client at its turn |
| ServerLoop.MarkedAreGone | src/server/server.cpp:339-352 | a polled client marked before the round is gone after it |
| ServerLoop.KeptIff | src/server/server.cpp:345-352 | removal keeps exactly the unflagged clients |
| ServerLoop.KeptInOrder | src/server/server.cpp:345-352 | those kept stay in their order |
| ServerLoop.Server.Drop | src/server/server_state.cpp:7074-7106 | a client's slot, grab and marks go with it |
| ServerLoop.Server.RemoveFlagged | src/server/server.cpp:345-352 | removing from the last to the first leaves the unflagged clients in order, and of grab, marks and ends those of the clients left |
| ServerLoop.RemovingKeepsConsistent | src/server/server.cpp:349-351 | after a removal a slot is still used exactly when one live client holds it |
| ServerLoop.AddingKeepsConsistent | src/server/server.cpp:259-276 | so it is after an arrival |
| ServerLoop.Server.Round | src/server/server.cpp:213-353 | one round, written out for every turn: by descending priority and connection order, flushed and read exactly under the stated conditions, each from the state before; a client is gone exactly for the causes listed, and a healthy one or one that just joined stays; what is left of grab, marks and ends is that of the clients that stay; nobody behind the grab, marked clients gone, id blocks disjoint |
| ServerLoop.Server.Run | src/server/server.cpp:213-353 | over any rounds a slot is used exactly when one live client holds it, clients stay within the maximum, and their id blocks are disjoint |
| GlxClient.CheckAttribs | src/server/glx_protocol.cpp:542-557 | the attribute loop finds the last version, any wrong profile and any flags |
| GlxClient.Client.NextContextTag | src/server/glx_protocol.cpp:104-112 | ends with an unused nonzero tag, first in cyclic order across the 32-bit wrap |
| GlxClient.Client.DrawableIsCurrent | src/server/glx_protocol.cpp:96-103 | true exactly when some binding draws to or reads from the drawable |
| GlxClient.Client.MakeCurrent | src/server/glx_protocol.cpp:192-225 | the checks in order, then the new binding in place of the old |
| GlxClient.Client.CreateContext | src/server/glx_protocol.cpp:143-177 | the legacy and the FBConfig context request, table and registry together |
| GlxClient.Client.CreateContextAttribs | src/server/glx_protocol.cpp:516-583 | the attribute checks come first, then those of every context |
| GlxClient.Client.CreateDrawable | src/server/glx_protocol.cpp:299-364 | pixmap, window and pbuffer requests, table and registry together |
| GlxClient.Client.DestroyDrawable | src/server/glx_protocol.cpp:381-410 | refuses another kind and a current drawable |
| GlxClient.Client.Handle | src/server/glx_protocol.cpp:143-698 | the handler moves tables, bindings, tag counter and registry as the state machine does |
| GlxLaws.StepKeeps | src/server/glx_protocol.cpp:143-698 | every request keeps the tables equal to the registry entries of their kinds, tags nonzero and the client within its limit |
| GlxLaws.ErrorsChangeNothing | src/server/glx_protocol.cpp:143-698 | a request answered with an error changes nothing |
| GlxLaws.MakeCurrentAcceptedIff | src/server/glx_protocol.cpp:603-622 | when exactly MakeContextCurrent succeeds |
| GlxLaws.MakeCurrentReplaces | src/server/glx_protocol.cpp:603-627 | a success puts an unused nonzero tag in the place of the old one and moves nothing else |
| GlxLaws.CreateThenDestroy | src/server/glx_protocol.cpp:143-191 | destroying what was just created gives the whole state back |
| GlxLaws.BoundDrawableStays | src/server/glx_protocol.cpp:381-410 | no event removes a GLX drawable that a binding names, or alters a binding |
| GlxLaws.ReachableIsConsistent | src/server/glx_protocol.cpp:96-225 | in every reachable state, whatever happens elsewhere in the server, tables and registry agree and a tag is left |
| GlxLaws.LiveBindingsKeepTheirDrawables | src/server/glx_protocol.cpp:381-410 | as long as a binding lives, every GLX drawable it names is still there |
| GlxLaws.BoundContextExists | src/server/glx_protocol.cpp:192-225 | a binding is made only with a context of the table |
| GlxLaws.ContextAfterIff | src/server/glx_protocol.cpp:143-191 | after any event a context is in the table exactly when it was and the event did not ask for its end, or the event created it |
| GlxLaws.ContextsStand | src/server/glx_protocol.cpp:178-191 | over any run a context stays until a DestroyContext names it |
| GlxLaws.ContextsGo | src/server/glx_protocol.cpp:178-191 | over any run a context destroyed and not created again is gone, whether or not a binding names it |
| GlxEffects.FreeIff | src/server/server_state.cpp:1190-1195 | an id is taken exactly when it lies in the client's block, is free and both limits leave room |
| GlxEffects.LastValueIsGiven | src/server/glx_protocol.cpp:630-664 | of an attribute given several times the last value counts, and the default when it is not given |
| GlxEffects.CreateContextEffect | src/server/glx_protocol.cpp:143-177 | when exactly a legacy context is created, what is entered, and which error is reported |
| GlxEffects.CreateNewContextEffect | src/server/glx_protocol.cpp:516-583 | the same for a context of a configuration |
| GlxEffects.CreateContextAttribsEffect | src/server/glx_protocol.cpp:516-583 | the same with attributes: version, profile and flags |
| GlxEffects.DestroyContextEffect | src/server/glx_protocol.cpp:178-191 | only the named context and its own registry entry go |
| GlxEffects.MakeCurrentErrors | src/server/glx_protocol.cpp:192-225 | which error a binding request reports, that the older request names one drawable twice, and that no context takes the old binding away |
| GlxEffects.CreateGlxPixmapEffect | src/server/glx_protocol.cpp:299-364 | when exactly a pixmap drawable is created; it has the size of its source |
| GlxEffects.CreatePixmapEffect | src/server/glx_protocol.cpp:299-364 | the same for a pixmap of a configuration |
| GlxEffects.CreateWindowEffect | src/server/glx_protocol.cpp:299-364 | the same for a window |
| GlxEffects.CreatePbufferEffect | src/server/glx_protocol.cpp:630-664 | when exactly a pbuffer is created, with the width and height given last |
| GlxEffects.DestroyDrawableEffect | src/server/glx_protocol.cpp:381-410 | a drawable of the kind named goes exactly when no binding draws to it or reads from it |
| GlxEffects.ChangeAttributesEffect | src/server/glx_protocol.cpp:683-698 | only the event mask changes, to the value given last |
| ImageView.Builder.StopsFit | src/server/render.cpp:298-316 | accepts exactly 1 to 4096 stops in nondecreasing order |
| ImageView.Builder.ClipFits | src/server/render.cpp:339-362 | accepts exactly clips whose moved rectangles fit 32 bits |
| ImageView.LocalStatus | src/server/render.cpp:179-246 | succeeds exactly for a picture valid on its own |
| ImageView.LocalFaults | src/server/render.cpp:179-246 | which fault of a picture is reported, when it has several |
| ImageView.Builder.Create | src/server/render.cpp:146-174 | terminates on every alpha-map graph, restores the ancestors on every exit, and gives the views of the chain |
| ImageView.Builder.Build | src/server/render.cpp:179-246 | a picture's own checks in order, then its alpha map below it |
| ImageView.BuildsIff | src/server/render.cpp:146-174 | succeeds exactly when the alpha maps come to an end within 64 pictures, each valid on its own |
| ImageView.MakeImage | src/server/render.cpp:409-416 | an image is made exactly for an existing picture whose alpha maps end within 64 pictures, each valid on its own, with the views of that chain; a missing picture and a picture's own fault are reported as such |
| ImageView.ChainsAreAcyclic | src/server/render.cpp:151-156 | a chain that ends never meets a picture twice |
| ImageView.EndlessIsRefused | src/server/render.cpp:151-157 | a cycle or an overlong chain of valid pictures is a mismatch |
| ImageView.ViewsFollowTheChain | src/server/render.cpp:375-397 | the views follow the chain to its end and at most the first is written back |
| Staging.BitsAreDistinct | src/server/render.cpp:272-281 | different pixels of a staged bitmap have different bits, in either host order |
| Staging.BytesAreDistinct | src/server/render.cpp:282-286 | different pixels of a staged byte surface have different bytes |
| Staging.ByteLayout | src/server/render.cpp:264-286 | which byte a pixel is, in rows of the fewest whole words |
| Staging.OtherPixelStays | src/server/render.cpp:272-281 | any change inside one pixel's mask changes no other pixel |
| Staging.WithPixelSetsOne | src/server/render.cpp:272-281 | setting a pixel's bit sets that pixel and no other |
| Staging.LitIsBit | src/server/render.cpp:268-281 | which bit of which word a pixel is, counted from either end by the host order, in rows of the fewest whole words |
| Staging.BitmapView.constructor | src/server/render.cpp:258-292 | packs a bitmap: a bit is set exactly for a nonzero pixel |
| Staging.BitmapView.WriteBack | src/server/render.cpp:101-128 | every pixel becomes what its bit says |
| Staging.StageBitmap | src/server/render.cpp:101-128 | whatever is changed in between, exactly the changed pixels change, and the others stay exactly if they were masked |
| Staging.BytemapView.constructor | src/server/render.cpp:258-292 | packs each pixel's low byte |
| Staging.BytemapView.WriteBack | src/server/render.cpp:101-128 | every pixel becomes its byte |
| Staging.StageBytemap | src/server/render.cpp:101-128 | as StageBitmap, for bytes |
| GlyphRuns.PlaceRun | src/server/render.cpp:714-748 | one run's glyphs stand where the moves before them lead |
| GlyphRuns.Place | src/server/render.cpp:707-752 | succeeds exactly when all glyph sets exist and the pen stays in 32 bits; a missing set is reported exactly when it is met before the pen leaves; every glyph stands where all moves before it lead |
| GlyphRunLaws.GlyphStandsAt | src/server/render.cpp:707-748 | glyph j of run i stands at the offsets of all runs so far plus those of all glyphs drawn before it, across and down |
| GlyphRunLaws.AfterRuns | src/server/render.cpp:707-748 | the pen after whole runs is the sum of their offsets and of their glyphs' |
| GlyphRuns.MaskBox | src/server/render.cpp:841-872 | for every list of glyphs the outcome is that of their least box as the loop's start values let it be seen, and a mask drawn is that least box itself |
| GlyphRuns.SeenMattersIff | src/server/render.cpp:841-872 | when exactly the start values change the outcome: an empty box out of range, answered as too much instead of nothing to draw |
| GlyphRuns.EmptyGlyphFarOut | src/server/render.cpp:841-872 | a glyph without width beyond the coordinates is such a case |
| GlyphRuns.RunsReachFarOut | src/server/render.cpp:707-752 | runs that place such a glyph with the pen in range throughout |
| GlyphRuns.FarOutIsRefused | src/server/render.cpp:841-872 | placing and boxing those runs is answered as too large, though there is nothing to draw |
| Shm.CheckedMultiply | src/server/include/xmin/server/checked.hpp:44-51 | the division test admits exactly the products that fit |
| Shm.ZPixmapSize | src/server/shm_protocol.cpp:38-56 | the size of an image, or nothing exactly when it does not fit |
| Shm.SizesFit | src/server/shm_protocol.cpp:38-56 | with 64-bit sizes no image of the protocol overflows |
| Shm.LargestImageNeeds64Bits | src/server/shm_protocol.cpp:38-56 | with 32-bit sizes the largest image does |
| Shm.Segment.CopyRows | src/server/shm_protocol.cpp:247-262 | the fast loop writes the image's bytes and nothing outside it |
| Shm.Segment.EncodeRows | src/server/shm_protocol.cpp:265-295 | the general loop writes the image's bytes and nothing outside it, for every depth and host |
| Shm.ImageAt | src/server/shm_protocol.cpp:245-296 | each byte of the image is that of its row and column |
| Shm.ColumnsHaveTheirBits | src/server/shm_protocol.cpp:274-279 | in a depth-1 image each column has its own bit, and spare bits are zero |
| Shm.BytesTellPixels | src/server/shm_protocol.cpp:285-292 | a pixel is determined by its four bytes |
| Shm.RowIsShown | src/server/shm_protocol.cpp:245-296 | a row is the fewest whole words for its pixels; at depth 1 each pixel is the bit of its column, up to depth 8 the byte of its column modulo 256, and above four bytes that add up to it; everything else is zero |
| Shm.FastEqualsGenericIff | src/server/shm_protocol.cpp:245-296 | the two loops agree exactly when no pixel shows a plane above its depth |
| Shm.UnmaskedStorageShows | src/server/shm_protocol.cpp:245-296 | one stored pixel with a bit above depth 24 for which the loops differ |
| Shm.GetImage | src/server/shm_protocol.cpp:195-296 | succeeds exactly when everything fits, changes exactly the image's bytes, each row of which shows the drawable's pixels in the planes asked for at every depth, and changes nothing on an error |
| SharedImage.CopyShared | src/server/shm_protocol.cpp:245-296 | over a pixmap in the segment itself, each pixel is read from what the earlier ones and, on a big-endian host, the zero fill have left |
| SharedImage.EncodedIsImage | src/server/shm_protocol.cpp:245-296 | the masked bytes of a rectangle's pixels are the image of GetImage |
| SharedImage.AheadIsImage | src/server/shm_protocol.cpp:245-263 | the image of the pixels as they were, when no pixel is read from what was written for an earlier one |
| SharedImage.DisjointIsImage | src/server/shm_protocol.cpp:245-296 | so for every pixmap outside the range written, on either host |
| SharedImage.LittleIff | src/server/shm_protocol.cpp:245-263 | with all planes asked for on a little-endian host, every memory gives the image exactly when no pixel is read from what was written for an earlier one |
| SharedImage.BigIff | src/server/shm_protocol.cpp:264-296 | with all planes asked for on a big-endian host, every memory gives the image exactly when the pixmap lies outside the range written |
| SharedImage.InPlaceIsMasked | src/server/shm_protocol.cpp:245-263 | a row copied onto itself is masked in place |
| SharedImage.ZeroedPixmapIsLost | src/server/shm_protocol.cpp:264-296 | on a big-endian host a pixmap inside the range written gives zeros, whatever it showed |
| SharedImage.ShiftedCopySpreads | src/server/shm_protocol.cpp:251-262 | a row copied one pixel further spreads its first pixel |
| PolyText.RoundTrip | src/server/font_protocol.cpp:590-650 | decoding an encoded, padded item list recovers it, up to one no-op at the end that reads as padding |
| PolyText.FirstRoundTrip | src/server/font_protocol.cpp:593-643 | an encoded item is read back as the first item of any body it starts |
| PolyText.PenIsSum | src/server/font_protocol.cpp:625-648 | the pen is the start plus all deltas plus all text widths in the font in force |
| PolyText.NoOpsDoNothing | src/server/font_protocol.cpp:594-601 | a no-op at the end changes neither the pen nor what is drawn |
| PolyText.OneErrorPerString | src/server/font_protocol.cpp:644-647 | a target that cannot be drawn on is answered once for each string, with its own error |
| PolyText.TwoStringsThreeErrors | src/server/font_protocol.cpp:644-650 | two one-letter strings for a missing drawable are answered with three errors |
| PolyText.PenStaysIn32Bits | src/server/font_protocol.cpp:590-648 | in every request the server takes, with fonts no wider than 2047, the pen after every item and every glyph origin fit 32 bits |
| PolyText.CostOfBody | src/server/font_protocol.cpp:593-649 | the items read move the pen by no more than the widest glyph for each byte of the body |
| PolyTextLaws.ItemBytes | src/server/font_protocol.cpp:602-640 | the bytes of an item: length, signed delta and characters, or 255 and the font id in the connection's order |
| PolyTextLaws.WidthIsSum | src/server/font_protocol.cpp:107-116 | the width of a string is the sum of its glyphs' widths |
| PolyTextLaws.FontIsInForce | src/server/font_protocol.cpp:603-619 | the font in force is that of the last shift |
| PolyTextLaws.GlyphsAreDrawn | src/server/font_protocol.cpp:590-648 | glyph j of string k is its character in the font in force, at the pen before the string plus its delta and the widths before it |
| PolyTextLaws.PenMoves | src/server/font_protocol.cpp:625-648 | each string moves the pen by its delta and the widths of its glyphs in the font in force |
| PolyText.TextPainter.MeasureText | src/server/font_protocol.cpp:107-116 | the sum of the widths; the clamp never acts on a request's strings |
| PolyText.TextPainter.PaintText | src/server/font_protocol.cpp:460-510 | draws each character where the widths before it lead, or answers an error |
| PolyText.TextPainter.ReadItem | src/server/font_protocol.cpp:602-643 | reads one item inside the body, or says why there is none |
| PolyText.TextPainter.PolyText | src/server/font_protocol.cpp:568-651 | draws exactly what the decoded items say, leaves the pen where they lead, and answers their errors in order |
| Capture.GetImageTiled | src/control/xminctl.cpp:891-947 | whatever the server answers, asks for tiles that partition the rows and gives their answers, cut to their rows, in order, exactly when every tile is answered in full |
| Capture.StrideIsLeast | src/control/xminctl.cpp:905-907 | a row is the fewest scanline units that hold its bits |
| Capture.TileIsMost | src/control/xminctl.cpp:914-916 | a tile is as many rows as fit half a MiB, at least one |
| Capture.TilesAreTheImage | src/control/xminctl.cpp:919-944 | from a server that shows an image the tiles are the whole image exactly when every tile start fits 16 signed bits, and nothing otherwise |
| Capture.TallImageFails | src/control/xminctl.cpp:927-929 | 40000 rows of 100 pixels are such a failure |
| Capture.EachRowOnce | src/control/xminctl.cpp:919-944 | in such a partition every row lies in exactly one tile |
| Capture.LowImagesFit | src/control/xminctl.cpp:919-927 | up to 32768 rows every tile start fits, and when it must fail beyond |
| Capture.FetchTile | src/control/xminctl.cpp:920-943 | a tile answered in full is stored right behind the rows before it; an error or a short answer is refused |
| Pixels.ReadPixel | src/control/xminctl.cpp:803-818 | the pixel that the bytes spell in either order |
| Pixels.ReadsWhatWasEncoded | src/control/xminctl.cpp:803-818 | the client reads back the pixel the server encoded |
| Pixels.PixelChannel | src/control/xminctl.cpp:788-801 | the masked value, shifted by the mask's lowest bit and scaled to 255 |
| Pixels.MaskShift | src/control/xminctl.cpp:776-786 | the place of the mask's lowest bit |
| Pixels.AndBits | src/control/xminctl.cpp:799 | the masked value has the bits that pixel and mask share |
| Pixels.ShiftedBits | src/control/xminctl.cpp:798-799 | a shift by some places takes each bit down by as many |
| Pixels.LowestBitIs | src/control/xminctl.cpp:776-786 | the place found holds a bit of the mask and no lower place does |
| Pixels.ScaledRange | src/control/xminctl.cpp:788-801 | where the 32-bit sum cannot wrap, none gives 0, all gives 255, and more never gives less |
| Pixels.ScaledIsNearest | src/control/xminctl.cpp:788-801 | there the result is the nearest intensity of 255, halves rounded up |
| Pixels.FullIntensityIff | src/control/xminctl.cpp:788-801 | for every mask, all of it reads as 255 exactly when that sum does not wrap |
| Pixels.WideMaskIsDimmed | src/control/xminctl.cpp:788-801 | a mask of 25 bits whose full intensity does not read as 255 |

## Left out

- Polygon.FillPolygon: computes crossings in exact reals where the code uses doubles.
- Line.DrawBrush: coordinates are unbounded, so an overflow of the 32-bit sums next to the coordinate limits is not modelled.
- Raster: a surface records its stores; raster functions, plane masks and clip regions of the store itself are not modelled.
- Arcs: trigonometric floating point.
- RandrRequests.Handle: request lengths, version gating and failed allocations are not modelled, nor the content of the events a commit sends.
- RANDR read-only replies, providers and leases would only add easy members.
- Primary-monitor uniqueness: the code does not maintain it.
- ReplyDemux.ClientConnection.Send: more than 65535 requests on a connection, where the 16-bit numbers repeat, are not modelled.
- ReplyDemux.ClientConnection.WaitReply: after the connection has failed only what is held can be waited for; what the code then reads on is the subject of `ReplyBytes`.
- ServerLoop.Apply: what a connection does when flushed or read is an arbitrary effect on grab, end and marks; poll, signals, timers and sockets are inputs of a round.
- GlxClient.Client.Handle: request lengths, failed allocations and the read-only requests are not modelled; X drawables are given with each request.
- GlxLaws.ReachableIsConsistent: runs are shorter than 2^32 - 1 events, as many as there are tags.
- ImageView: failed allocations, pixman's own objects and their attributes.
- Staging: the word buffer of a bitmap and the byte buffer of a depth-8 surface are modelled as words and as bytes; that both are one buffer in the code is not.
- GlyphRuns.Place: the composite calls themselves, and 32-bit sums next to the limits when there is no mask format.
- Shm.GetImage: takes the pixels read as given; a pixmap in the segment itself is the subject of `SharedImage`, for pixels of 32 bits.
- PolyText.TextPainter.PolyText: glyphs wider than 2047, for which a sum of the code could leave 32 bits (the embedded ones measure at most 17); drawing of glyph rows; the font id is read in the connection's byte order as the code does, where Appendix B of the X11 Protocol fixes it most significant byte first.
- Capture.GetImageTiled: failed allocation of the buffer.
- Sockets, session set-up, display locks, shared-memory mapping, region algebra, colour and atom tables, protocol generation and the viewer.
