/** Building the image of a picture, render.cpp: a picture may use another one as
    its alpha map, and the list of pictures under construction guards the walk. */
module ImageView {
  import opened Options

  const INT16_MIN: int := -0x8000
  const INT16_MAX: int := 0x7fff
  const INT32_MIN: int := -0x8000_0000
  const INT32_MAX: int := 0x7fff_ffff
  const STOP_LIMIT: nat := 4096
  const CHAIN_LIMIT: nat := 64

  datatype Status = Success | BadPicture | BadFormat | BadDrawable | BadMatch | BadAlloc

  datatype PictureSurface = PictureSurface(depth: nat, contiguous: bool)

  /** A gradient carries the positions of its stops. */
  datatype Source =
    | FromDrawable(surface: Option<PictureSurface>)
    | Solid
    | Gradient(stops: seq<int>)

  datatype Rectangle = Rectangle(x: int, y: int, width: nat, height: nat)
  datatype Clip = Clip(rectangles: seq<Rectangle>, xOrigin: int, yOrigin: int)
  datatype AlphaMap = NoAlphaMap | UsesAlphaMap(picture: Option<nat>, xOrigin: int, yOrigin: int)
  datatype Picture = Picture(format: nat, source: Source, clip: Option<Clip>, alpha: AlphaMap)

  /** The depth of a render format. */
  function FormatDepth(format: nat): Option<nat> {
    match format
    case 1 => Some(32)
    case 2 => Some(24)
    case 3 => Some(8)
    case 4 => Some(1)
    case _ => None
  }

  /** Pictures, by identity; an alpha map held by a picture exists. */
  type Pictures = map<nat, Picture>

  predicate Closed(pictures: Pictures) {
    forall p :: p in pictures && pictures[p].alpha.UsesAlphaMap? && pictures[p].alpha.picture.Some?
      ==> pictures[p].alpha.picture.value in pictures
  }

  // ---- What makes one picture usable

  predicate StopsOk(stops: seq<int>) {
    0 < |stops| <= STOP_LIMIT && forall i, j :: 0 <= i < j < |stops| ==> stops[i] <= stops[j]
  }

  predicate InRange(r: Rectangle, xOrigin: int, yOrigin: int) {
    && INT32_MIN <= r.x + xOrigin && r.x + xOrigin + r.width <= INT32_MAX
    && INT32_MIN <= r.y + yOrigin && r.y + yOrigin + r.height <= INT32_MAX
  }

  predicate ClipOk(clip: Clip) {
    forall i :: 0 <= i < |clip.rectangles| ==> InRange(clip.rectangles[i], clip.xOrigin, clip.yOrigin)
  }

  /** An alpha map is placed by signed 16-bit numbers. */
  predicate Placeable(alpha: AlphaMap) {
    alpha.UsesAlphaMap? ==> -0x8000 <= alpha.xOrigin < 0x8000 && -0x8000 <= alpha.yOrigin < 0x8000
  }

  /** A picture that is valid on its own, whatever its alpha map is: it has one of the
      four formats (ARGB32, RGB24, A8, A1), over a drawable that drawable's depth, its
      stops and clip fit, and only a drawable can be written to. */
  predicate LocallyValid(p: Picture, writable: bool) {
    && 1 <= p.format <= 4
    && (match p.source
        case FromDrawable(surface) =>
          && surface.Some? && surface.value.contiguous
          && (p.format, surface.value.depth) in {(1, 32), (2, 24), (3, 8), (4, 1)}
        case Solid => !writable
        case Gradient(stops) => !writable && StopsOk(stops))
    && (p.clip.Some? ==> ClipOk(p.clip.value))
    && Placeable(p.alpha) && (p.alpha.UsesAlphaMap? ==> p.alpha.picture.Some?)
  }

  /** What is wrong with a picture on its own, the first thing found. */
  function LocalStatus(p: Picture, writable: bool): (status: Status)
    ensures status == Success <==> LocallyValid(p, writable)
  {
    var source := SourceStatus(p, writable);
    if source != Success then source
    else if p.clip.Some? && !ClipOk(p.clip.value) then BadMatch
    else if !Placeable(p.alpha) then BadMatch
    else if p.alpha.UsesAlphaMap? && p.alpha.picture.None? then BadPicture
    else Success
  }

  function SourceStatus(p: Picture, writable: bool): Status {
    if FormatDepth(p.format).None? then BadFormat
    else
      match p.source
      case FromDrawable(surface) =>
        if surface.None? then BadDrawable
        else if surface.value.depth != FormatDepth(p.format).value then BadMatch
        else if !surface.value.contiguous then BadAlloc
        else Success
      case Solid => if writable then BadMatch else Success
      case Gradient(stops) => if writable || !StopsOk(stops) then BadMatch else Success
  }

  /** Which fault is reported, when a picture has several. */
  lemma LocalFaults(p: Picture, writable: bool)
    ensures var status := LocalStatus(p, writable);
            var known := 1 <= p.format <= 4;
            var drawable := p.source.FromDrawable?;
            var held := drawable && p.source.surface.Some?;
            var matches := held && (p.format, p.source.surface.value.depth) in {(1, 32), (2, 24), (3, 8), (4, 1)};
            var usable := if drawable then matches && p.source.surface.value.contiguous
                          else known && !writable && (p.source.Gradient? ==> StopsOk(p.source.stops));
            var fits := (p.clip.Some? ==> ClipOk(p.clip.value)) && Placeable(p.alpha);
            && (status == BadFormat <==> !known)
            && (status == BadDrawable <==> known && drawable && !held)
            && (status == BadAlloc <==> matches && !p.source.surface.value.contiguous)
            && (status == BadPicture <==> usable && fits && p.alpha.UsesAlphaMap? && p.alpha.picture.None?)
            && (status == BadMatch <==>
                  (known && held && !matches) || (known && !drawable && !usable) || (usable && !fits))
  {
  }

  // ---- The walk along the alpha maps

  /** The alpha map picture a picture names. */
  function Next(pictures: Pictures, p: nat): Option<nat>
    requires p in pictures
  {
    if pictures[p].alpha.UsesAlphaMap? then pictures[p].alpha.picture else None
  }

  /** A whole alpha-map chain: each picture is the alpha map of the one before,
      and the last one has none. */
  ghost predicate IsChain(pictures: Pictures, chain: seq<nat>) {
    && 0 < |chain| && (forall i :: 0 <= i < |chain| ==> chain[i] in pictures)
    && (forall i :: 0 <= i < |chain| - 1 ==> Next(pictures, chain[i]) == Some(chain[i + 1]))
    && Next(pictures, chain[|chain| - 1]) == None
  }

  ghost predicate ChainValid(pictures: Pictures, chain: seq<nat>, writable: bool)
    requires forall i :: 0 <= i < |chain| ==> chain[i] in pictures
  {
    forall i :: 0 <= i < |chain| ==> LocallyValid(pictures[chain[i]], writable && i == 0)
  }

  /** The views built, from the picture asked for to the end of its chain. Only
      the first is written back, and only when its surface is staged. */
  datatype View = View(picture: nat, writeBack: bool, alphaMap: Option<View>)

  function ChainOf(v: View): seq<nat> {
    [v.picture] + if v.alphaMap.Some? then ChainOf(v.alphaMap.value) else []
  }

  /** A surface of depth 1 or 8 is staged; deeper ones are used in place. */
  function Staged(p: Picture): bool {
    p.source.FromDrawable? && p.source.surface.Some? && p.source.surface.value.depth <= 8
  }

  ghost predicate Distinct(list: seq<nat>) { forall i, j :: 0 <= i < j < |list| ==> list[i] != list[j] }

  /** A chain that ends never meets a picture twice. */
  lemma {:induction false} ChainsAreAcyclic(pictures: Pictures, chain: seq<nat>)
    requires IsChain(pictures, chain)
    ensures Distinct(chain)
  {
    forall i, j | 0 <= i < j < |chain| ensures chain[i] != chain[j] {
      if chain[i] == chain[j] {
        var k := |chain| - 1 - j;
        SameTail(pictures, chain, i, j, k);
      }
    }
  }

  lemma {:induction false} SameTail(pictures: Pictures, chain: seq<nat>, i: nat, j: nat, k: nat)
    requires IsChain(pictures, chain) && i < j && j + k < |chain| && chain[i] == chain[j]
    ensures chain[i + k] == chain[j + k] && Next(pictures, chain[i + k]) == Some(chain[i + k + 1])
  {
    if k > 0 {
      SameTail(pictures, chain, i, j, k - 1);
      assert Next(pictures, chain[i + k - 1]) == Some(chain[i + k]);
      assert Next(pictures, chain[j + k - 1]) == Some(chain[j + k]);
    }
  }

  // ---- The builder

  /** How building goes on from `p` below the pictures under construction. */
  ghost function Verdict(pictures: Pictures, ancestors: seq<nat>, p: nat, writable: bool): Status
    requires Closed(pictures) && p in pictures
    decreases CHAIN_LIMIT - |ancestors|
  {
    if p in ancestors || |ancestors| >= CHAIN_LIMIT then BadMatch
    else if LocalStatus(pictures[p], writable) != Success then LocalStatus(pictures[p], writable)
    else
      var next := Next(pictures, p);
      if next.None? then Success else Verdict(pictures, ancestors + [p], next.value, false)
  }

  class Builder {
    const pictures: Pictures
    /** The pictures under construction, outermost first. */
    var ancestors: seq<nat>

    constructor (pictures: Pictures)
      ensures this.pictures == pictures && ancestors == []
    {
      this.pictures := pictures;
      ancestors := [];
    }

    /** Positions never decrease. */
    method StopsFit(stops: seq<int>) returns (ok: bool)
      requires forall i :: 0 <= i < |stops| ==> INT32_MIN <= stops[i]
      ensures ok == StopsOk(stops)
    {
      if |stops| == 0 || |stops| > STOP_LIMIT {
        return false;
      }
      var previous := INT32_MIN;
      for n := 0 to |stops|
        invariant previous == if n == 0 then INT32_MIN else stops[n - 1]
        invariant forall i, j :: 0 <= i < j < n ==> stops[i] <= stops[j]
      {
        if stops[n] < previous {
          return false;
        }
        previous := stops[n];
      }
      return true;
    }

    method ClipFits(clip: Clip) returns (ok: bool)
      ensures ok == ClipOk(clip)
    {
      for n := 0 to |clip.rectangles|
        invariant forall i :: 0 <= i < n ==> InRange(clip.rectangles[i], clip.xOrigin, clip.yOrigin)
      {
        var left, top := clip.rectangles[n].x + clip.xOrigin, clip.rectangles[n].y + clip.yOrigin;
        var right, bottom := left + clip.rectangles[n].width, top + clip.rectangles[n].height;
        if left < INT32_MIN || top < INT32_MIN || right > INT32_MAX || bottom > INT32_MAX {
          assert !InRange(clip.rectangles[n], clip.xOrigin, clip.yOrigin);
          return false;
        }
      }
      return true;
    }

    /** The view of a picture, or why there is none. Whatever happens, the list of
        ancestors is given back as it was. */
    method Create(p: nat, writable: bool) returns (status: Status, view: Option<View>)
      requires Closed(pictures) && p in pictures && |ancestors| <= CHAIN_LIMIT
      requires StopsStored(pictures)
      modifies this
      ensures ancestors == old(ancestors)
      ensures status == Verdict(pictures, old(ancestors), p, writable)
      ensures view.Some? <==> status == Success
      ensures view.Some? ==> Describes(pictures, view.value, p, writable)
      decreases CHAIN_LIMIT - |ancestors|, 1
    {
      if p in ancestors {
        return BadMatch, None;
      }
      if |ancestors| == CHAIN_LIMIT {
        return BadMatch, None;
      }
      ghost var before := ancestors;
      ancestors := ancestors + [p];
      var alphaMap;
      status, alphaMap := Build(p, writable);
      ancestors := ancestors[..|ancestors| - 1];
      assert ancestors == before;
      if status != Success {
        return status, None;
      }
      view := Some(View(p, writable && Staged(pictures[p]), alphaMap));
    }

    /** What follows once a picture is on the list: its own checks, then its alpha map. */
    method Build(p: nat, writable: bool) returns (status: Status, alphaMap: Option<View>)
      requires Closed(pictures) && p in pictures && StopsStored(pictures)
      requires 0 < |ancestors| <= CHAIN_LIMIT && ancestors[|ancestors| - 1] == p
      modifies this
      ensures ancestors == old(ancestors)
      ensures status == if LocalStatus(pictures[p], writable) != Success then LocalStatus(pictures[p], writable)
                        else if Next(pictures, p).None? then Success
                        else Verdict(pictures, old(ancestors), Next(pictures, p).value, false)
      ensures status == Success ==> (alphaMap.Some? <==> Next(pictures, p).Some?)
      ensures alphaMap.Some? ==>
                Next(pictures, p).Some? && Describes(pictures, alphaMap.value, Next(pictures, p).value, false)
      decreases CHAIN_LIMIT - |ancestors|, 2
    {
      alphaMap := None;
      var picture := pictures[p];
      var depth := FormatDepth(picture.format);
      if depth.None? {
        return BadFormat, None;
      }
      match picture.source {
        case FromDrawable(surface) =>
          if surface.None? {
            return BadDrawable, None;
          }
          if surface.value.depth != depth.value {
            return BadMatch, None;
          }
          if !surface.value.contiguous {
            return BadAlloc, None;
          }
        case Solid =>
          if writable {
            return BadMatch, None;
          }
        case Gradient(stops) =>
          if writable {
            return BadMatch, None;
          }
          var fit := StopsFit(stops);
          if !fit {
            return BadMatch, None;
          }
      }
      if picture.clip.Some? {
        var fit := ClipFits(picture.clip.value);
        if !fit {
          return BadMatch, None;
        }
      }
      if picture.alpha.UsesAlphaMap? {
        var x, y := picture.alpha.xOrigin, picture.alpha.yOrigin;
        if x < INT16_MIN || x > INT16_MAX || y < INT16_MIN || y > INT16_MAX {
          return BadMatch, None;
        }
        if picture.alpha.picture.None? {
          return BadPicture, None;
        }
        status, alphaMap := Create(picture.alpha.picture.value, false);
        return;
      }
      return Success, None;
    }
  }

  /** Gradient stops are stored as 32-bit positions. */
  predicate StopsStored(pictures: Pictures) {
    forall p :: p in pictures && pictures[p].source.Gradient? ==>
      forall i :: 0 <= i < |pictures[p].source.stops| ==> INT32_MIN <= pictures[p].source.stops[i]
  }

  /** A view and its alpha maps are those of the picture's chain. */
  ghost predicate Describes(pictures: Pictures, v: View, p: nat, writable: bool)
    decreases v
  {
    && p in pictures && v.picture == p
    && (v.writeBack <==> writable && match pictures[p].source
                                     case FromDrawable(surface) => surface.Some? && surface.value.depth <= 8
                                     case _ => false)
    && (match v.alphaMap
        case None => Next(pictures, p).None?
        case Some(below) => Next(pictures, p).Some? && Describes(pictures, below, Next(pictures, p).value, false))
  }

  // ---- When building succeeds

  ghost predicate Begins(pictures: Pictures, chain: seq<nat>, p: nat, writable: bool, limit: int) {
    IsChain(pictures, chain) && chain[0] == p && |chain| <= limit && ChainValid(pictures, chain, writable)
  }

  /** There is such a chain. */
  ghost predicate Ends(pictures: Pictures, p: nat, writable: bool, limit: int) {
    exists chain :: Begins(pictures, chain, p, writable, limit)
  }

  /** Success below some ancestors needs a valid chain that ends, ... */
  lemma {:induction false} SuccessHasChain(pictures: Pictures, ancestors: seq<nat>, p: nat, writable: bool)
    returns (chain: seq<nat>)
    requires Closed(pictures) && p in pictures
    requires Verdict(pictures, ancestors, p, writable) == Success
    ensures Begins(pictures, chain, p, writable, CHAIN_LIMIT - |ancestors|)
    decreases CHAIN_LIMIT - |ancestors|
  {
    var next := Next(pictures, p);
    chain := [p];
    if next.Some? {
      var rest := SuccessHasChain(pictures, ancestors + [p], next.value, false);
      Prepend(pictures, p, rest, writable);
      chain := [p] + rest;
    }
  }

  /** ... and such a chain, off the ancestors and within the limit, is enough. */
  lemma {:induction false} ChainSucceeds(pictures: Pictures, ancestors: seq<nat>, chain: seq<nat>, writable: bool)
    requires Closed(pictures) && IsChain(pictures, chain) && ChainValid(pictures, chain, writable)
    requires |ancestors| + |chain| <= CHAIN_LIMIT && Distinct(ancestors + chain)
    ensures Verdict(pictures, ancestors, chain[0], writable) == Success
    decreases |chain|
  {
    var p, rest, below := chain[0], chain[1..], ancestors + [chain[0]];
    forall i | 0 <= i < |ancestors| ensures ancestors[i] != p {
      assert (ancestors + chain)[i] == ancestors[i] && (ancestors + chain)[|ancestors|] == p;
    }
    assert LocallyValid(pictures[p], writable);
    if |chain| > 1 {
      assert Next(pictures, chain[0]) == Some(chain[1]);
      assert below + rest == ancestors + chain;
      forall i | 0 <= i < |rest| - 1 ensures Next(pictures, rest[i]) == Some(rest[i + 1]) {
        assert Next(pictures, chain[i + 1]) == Some(chain[i + 2]);
      }
      forall i | 0 <= i < |rest| ensures LocallyValid(pictures[rest[i]], false) {
        assert rest[i] == chain[i + 1];
      }
      ChainSucceeds(pictures, below, rest, false);
    }
  }

  /** An image is built exactly when the alpha maps from the picture on come to an
      end within 64 pictures, each of them valid on its own. */
  lemma BuildsIff(pictures: Pictures, p: nat, writable: bool)
    requires Closed(pictures) && p in pictures
    ensures Verdict(pictures, [], p, writable) == Success <==> Ends(pictures, p, writable, CHAIN_LIMIT)
  {
    if Verdict(pictures, [], p, writable) == Success {
      var chain := SuccessHasChain(pictures, [], p, writable);
    }
    if Ends(pictures, p, writable, CHAIN_LIMIT) {
      var chain :| Begins(pictures, chain, p, writable, CHAIN_LIMIT);
      ChainsAreAcyclic(pictures, chain);
      assert [] + chain == chain;
      ChainSucceeds(pictures, [], chain, writable);
    }
  }

  /** A cycle of alpha maps, or a chain beyond the limit, of pictures that are all
      valid is refused as a mismatch, not followed forever. */
  lemma {:induction false} EndlessIsRefused(pictures: Pictures, ancestors: seq<nat>, p: nat, writable: bool)
    requires Closed(pictures) && p in pictures
    requires forall q :: q in pictures ==> LocallyValid(pictures[q], false)
    requires LocallyValid(pictures[p], writable)
    requires !Ends(pictures, p, writable, CHAIN_LIMIT - |ancestors|)
    ensures Verdict(pictures, ancestors, p, writable) == BadMatch
    decreases CHAIN_LIMIT - |ancestors|
  {
    if p !in ancestors && |ancestors| < CHAIN_LIMIT {
      var next := Next(pictures, p);
      if next.None? {
        assert Begins(pictures, [p], p, writable, CHAIN_LIMIT - |ancestors|);
      } else {
        var left := CHAIN_LIMIT - |ancestors| - 1;
        if Ends(pictures, next.value, false, left) {
          var rest :| Begins(pictures, rest, next.value, false, left);
          Prepend(pictures, p, rest, writable);
          assert Begins(pictures, [p] + rest, p, writable, CHAIN_LIMIT - |ancestors|);
        }
        EndlessIsRefused(pictures, ancestors + [p], next.value, false);
      }
    }
  }

  lemma Prepend(pictures: Pictures, p: nat, rest: seq<nat>, writable: bool)
    requires p in pictures && IsChain(pictures, rest) && Next(pictures, p) == Some(rest[0])
    requires LocallyValid(pictures[p], writable) && ChainValid(pictures, rest, false)
    ensures IsChain(pictures, [p] + rest) && ChainValid(pictures, [p] + rest, writable)
  {
    var chain := [p] + rest;
    forall i | 0 <= i < |chain| ensures chain[i] in pictures && LocallyValid(pictures[chain[i]], writable && i == 0) {
      if i > 0 {
        assert chain[i] == rest[i - 1];
      }
    }
    forall i | 0 <= i < |chain| - 1 ensures Next(pictures, chain[i]) == Some(chain[i + 1]) {
      if i > 0 {
        assert chain[i] == rest[i - 1] && chain[i + 1] == rest[i];
      }
    }
  }

  /** The views built follow the chain to its end, and at most the first of them
      is written back. */
  lemma {:induction false} ViewsFollowTheChain(pictures: Pictures, v: View, p: nat, writable: bool)
    requires Closed(pictures) && Describes(pictures, v, p, writable)
    ensures IsChain(pictures, ChainOf(v)) && ChainOf(v)[0] == p
    ensures v.alphaMap.Some? ==> !v.alphaMap.value.writeBack
    decreases v
  {
    if v.alphaMap.Some? {
      var below := v.alphaMap.value;
      ViewsFollowTheChain(pictures, below, below.picture, false);
      var chain := ChainOf(v);
      forall i | 0 <= i < |chain| - 1 ensures Next(pictures, chain[i]) == Some(chain[i + 1]) {
        if i > 0 {
          assert Next(pictures, ChainOf(below)[i - 1]) == Some(ChainOf(below)[i]);
        }
      }
    }
  }

  /** make_image: the image of a picture id, starting with nothing under construction.
      It is built exactly when the alpha maps from the picture on come to an end within
      64 pictures, each valid on its own; a missing picture is reported as such, and
      a picture's own fault before its alpha map's. */
  method MakeImage(pictures: Pictures, id: nat, writable: bool) returns (status: Status, view: Option<View>)
    requires Closed(pictures) && StopsStored(pictures)
    ensures view.Some? <==> status == Success
    ensures status == Success <==> id in pictures && Ends(pictures, id, writable, 64)
    ensures status == Success ==> Describes(pictures, view.value, id, writable)
    ensures id !in pictures ==> status == BadPicture
    ensures id in pictures && !LocallyValid(pictures[id], writable) ==> status == LocalStatus(pictures[id], writable)
  {
    if id !in pictures {
      return BadPicture, None;
    }
    var builder := new Builder(pictures);
    status, view := builder.Create(id, writable);
    BuildsIff(pictures, id, writable);
  }
}
