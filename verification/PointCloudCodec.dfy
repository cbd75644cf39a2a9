/** The layout-preserving point-cloud codec: transport/draco_pointcloud_codec.cpp, lines 400-601. */
module PointCloudCodec {
  import opened Common
  import opened Arithmetic
  import opened PointLayout
  import opened PointSlots
  import opened Sidecar

  const FORMAT_VERSION: Byte := 2

  datatype Header = Header(sequence: UInt32, stamp: (UInt32, UInt32), frameId: string)

  datatype PointCloud2 = PointCloud2(
    header: Header,
    geometry: Geometry,
    fields: seq<PointField>,
    isBigEndian: bool,
    isDense: bool,
    data: seq<Byte>)

  datatype EncodedPointCloud = EncodedPointCloud(
    codec: string,
    formatVersion: Byte,
    pointType: string,
    header: Header,
    geometry: Geometry,
    fields: seq<PointField>,
    isBigEndian: bool,
    isDense: bool,
    sourceStamp: (UInt32, UInt32),
    frameId: string,
    payload: seq<Byte>,
    sidecar: seq<Byte>)

  // ----- The geometry codec -----

  // One point as submitted to or returned by the geometry codec
  datatype GeometryPoint = GeometryPoint(position: Position, index: UInt32, color: Color)

  datatype GeometryCloud = GeometryCloud(
    points: seq<GeometryPoint>,
    hasPosition: bool,
    hasIndex: bool,
    hasColor: bool)

  // encode takes the points and whether they carry colour; either function may fail.
  datatype GeometryCodec = GeometryCodec(
    encode: (seq<GeometryPoint>, bool) -> Option<seq<Byte>>,
    decode: seq<Byte> -> Option<GeometryCloud>)

  // quantize(points, i) is the image of the position of point i
  type Quantizer = (seq<GeometryPoint>, nat) -> Position

  predicate IndicesPermute(points: seq<GeometryPoint>, count: nat) {
    && |points| == count
    && (forall k :: 0 <= k < |points| ==> points[k].index < count)
    && (forall j, k :: 0 <= j < k < |points| ==> points[j].index != points[k].index)
  }

  // The cloud holds the submitted points in some order, with index and colour exact and
  // the position quantised; colour is present exactly when it was submitted.
  ghost predicate Reorders(points: seq<GeometryPoint>, withColor: bool, quantize: Quantizer, cloud: GeometryCloud) {
    && cloud.hasPosition && cloud.hasIndex && cloud.hasColor == withColor
    && IndicesPermute(cloud.points, |points|)
    && forall k :: 0 <= k < |cloud.points| ==>
         var p := cloud.points[k];
         && p.position == quantize(points, p.index)
         && (withColor ==> p.color == points[p.index].color)
  }

  // The points carry their places in the list as indices, as the ones submitted do.
  predicate Numbered(points: seq<GeometryPoint>) {
    forall i :: 0 <= i < |points| ==> points[i].index == i
  }

  ghost predicate Faithful(codec: GeometryCodec, quantize: Quantizer) {
    forall points, withColor ::
      Numbered(points) && codec.encode(points, withColor).Some? ==>
        var bytes := codec.encode(points, withColor).value;
        bytes != [] && codec.decode(bytes).Some?
        && Reorders(points, withColor, quantize, codec.decode(bytes).value)
  }

  // ----- Point offsets -----

  function PointDataOffset(g: Geometry, index: nat): nat
    requires g.width > 0
  {
    PointAt(g, index / g.width, index % g.width)
  }

  predicate InGrid(g: Geometry, index: nat) {
    g.width > 0 && index / g.width < g.height
  }

  lemma IndexInGrid(g: Geometry, index: nat)
    requires g.width > 0 && index < g.PointCount()
    ensures InGrid(g, index)
  {
    var row := index / g.width;
    if row >= g.height {
      MulMonotone(g.width, g.height, row);
    }
  }

  lemma OffsetInData(g: Geometry, index: nat)
    requires g.RowsFit() && InGrid(g, index)
    ensures PointDataOffset(g, index) + g.pointStep <= g.DataSize()
  {
    CellInData(g, index / g.width, index % g.width);
  }

  lemma CellInData(g: Geometry, row: nat, column: nat)
    requires g.RowsFit() && row < g.height && column < g.width
    ensures PointAt(g, row, column) + g.pointStep <= g.DataSize()
  {
    PointInData(g, row, column);
  }

  lemma CellsApart(g: Geometry, r: nat, c: nat, r': nat, c': nat)
    requires g.RowsFit() && c < g.width && c' < g.width
    requires r < r' || (r == r' && c < c')
    ensures PointAt(g, r, c) + g.pointStep <= PointAt(g, r', c')
  {
    ColumnInRow(g, c);
    if r == r' {
      MulBeyond(g.pointStep, c, c');
    } else {
      MulBeyond(g.rowStep, r, r');
    }
  }

  lemma OffsetsApart(g: Geometry, i: nat, j: nat)
    requires g.RowsFit() && g.width > 0 && i < j
    ensures PointDataOffset(g, i) + g.pointStep <= PointDataOffset(g, j)
  {
    var r, c, r', c' := i / g.width, i % g.width, j / g.width, j % g.width;
    assert r < r' || (r == r' && c < c') by {
      RowsOrdered(g.width, i, j);
    }
    CellsApart(g, r, c, r', c');
  }

  lemma RowsOrdered(width: nat, i: nat, j: nat)
    requires width > 0 && i < j
    ensures i / width <= j / width
    ensures i / width == j / width ==> i % width < j % width
  {
    if i / width > j / width {
      MulMonotone(width, j / width + 1, i / width);
    }
  }

  // ----- Reading and writing one point -----

  predicate Fits(s: Slots, off: nat, pointStep: nat, size: nat) {
    WellPlaced(s, pointStep) && off + pointStep <= size
  }

  function PositionAt(d: seq<Byte>, off: nat, s: Slots, bigEndian: bool, pointStep: nat): Position
    requires Fits(s, off, pointStep, |d|)
  {
    Position(WordAt(d, off + s.x, bigEndian), WordAt(d, off + s.y, bigEndian), WordAt(d, off + s.z, bigEndian))
  }

  // ReadColor; alpha reads as 255 where there is no alpha field
  function ReadColor(d: seq<Byte>, off: nat, s: Slots, bigEndian: bool, pointStep: nat): Color
    requires Fits(s, off, pointStep, |d|) && s.color != NoSlots
  {
    match s.color
    case PackedAt(at) => Unpack(WordAt(d, off + at, bigEndian))
    case SeparateAt(r, g, b, a) =>
      Color(d[off + r], d[off + g], d[off + b], if a.None? then 255 else d[off + a.value])
  }

  // The point holds the colour, as far as its layout has room for it
  predicate HoldsColor(d: seq<Byte>, off: nat, s: Slots, bigEndian: bool, pointStep: nat, c: Color)
    requires Fits(s, off, pointStep, |d|)
  {
    match s.color
    case NoSlots => true
    case PackedAt(at) => WordAt(d, off + at, bigEndian) == Pack(c)
    case SeparateAt(r, g, b, a) =>
      && d[off + r] == c.red && d[off + g] == c.green && d[off + b] == c.blue
      && (a.Some? ==> d[off + a.value] == c.alpha)
  }

  predicate HoldsPoint(d: seq<Byte>, off: nat, s: Slots, bigEndian: bool, pointStep: nat, p: GeometryPoint)
    requires Fits(s, off, pointStep, |d|)
  {
    && PositionAt(d, off, s, bigEndian, pointStep) == p.position
    && HoldsColor(d, off, s, bigEndian, pointStep, p.color)
  }

  // Whether a point holds a value depends only on its own bytes.
  lemma HoldsFrame(a: seq<Byte>, b: seq<Byte>, off: nat, s: Slots, bigEndian: bool, pointStep: nat, p: GeometryPoint)
    requires Fits(s, off, pointStep, |a|) && Agree(a, b, off, off + pointStep)
    ensures HoldsPoint(a, off, s, bigEndian, pointStep, p) <==> HoldsPoint(b, off, s, bigEndian, pointStep, p)
  {
    WordFrame(a, b, off + s.x, bigEndian);
    WordFrame(a, b, off + s.y, bigEndian);
    WordFrame(a, b, off + s.z, bigEndian);
    if s.color.PackedAt? {
      WordFrame(a, b, off + s.color.at, bigEndian);
    }
  }

  // Bytes of the data that the write of one point may change
  predicate Encoded(s: Slots, byte: nat) {
    IsXyz(s, byte) || IsColor(s.color, byte)
  }

  ghost predicate OnlyEncoded(a: seq<Byte>, b: seq<Byte>, off: nat, s: Slots, pointStep: nat) {
    |a| == |b| && forall q: nat :: q < |a| && !(off <= q < off + pointStep && Encoded(s, q - off)) ==> a[q] == b[q]
  }

  method WritePosition(data: array<Byte>, off: nat, s: Slots, bigEndian: bool, pointStep: nat, p: Position)
    requires Fits(s, off, pointStep, data.Length)
    modifies data
    ensures PositionAt(data[..], off, s, bigEndian, pointStep) == p
    ensures forall q: nat :: q < data.Length && !(off <= q < off + pointStep && IsXyz(s, q - off))
              ==> data[q] == old(data[q])
  {
    WriteUint32(p.x, bigEndian, data, off + s.x);
    ghost var d1 := data[..];
    WriteUint32(p.y, bigEndian, data, off + s.y);
    ghost var d2 := data[..];
    WordFrame(d1, d2, off + s.x, bigEndian);
    WriteUint32(p.z, bigEndian, data, off + s.z);
    WordFrame(d2, data[..], off + s.x, bigEndian);
    WordFrame(d2, data[..], off + s.y, bigEndian);
  }

  method WriteColor(data: array<Byte>, off: nat, s: Slots, bigEndian: bool, pointStep: nat, c: Color)
    requires Fits(s, off, pointStep, data.Length) && s.color != NoSlots
    modifies data
    ensures HoldsColor(data[..], off, s, bigEndian, pointStep, c)
    ensures forall q: nat :: q < data.Length && !(off <= q < off + pointStep && IsColor(s.color, q - off))
              ==> data[q] == old(data[q])
  {
    match s.color {
      case PackedAt(at) =>
        WriteUint32(Pack(c), bigEndian, data, off + at);
      case SeparateAt(r, g, b, a) =>
        data[off + r] := c.red;
        data[off + g] := c.green;
        data[off + b] := c.blue;
        if a.Some? {
          data[off + a.value] := c.alpha;
        }
    }
  }

  method WritePoint(data: array<Byte>, off: nat, s: Slots, bigEndian: bool, pointStep: nat,
                    p: GeometryPoint, hasColor: bool)
    requires Fits(s, off, pointStep, data.Length) && (hasColor <==> s.color != NoSlots)
    modifies data
    ensures HoldsPoint(data[..], off, s, bigEndian, pointStep, p)
    ensures OnlyEncoded(old(data[..]), data[..], off, s, pointStep)
  {
    WritePosition(data, off, s, bigEndian, pointStep, p.position);
    ghost var d := data[..];
    if hasColor {
      WriteColor(data, off, s, bigEndian, pointStep, p.color);
      PositionFrame(d, data[..], off, s, bigEndian, pointStep);
    }
  }

  lemma PositionFrame(a: seq<Byte>, b: seq<Byte>, off: nat, s: Slots, bigEndian: bool, pointStep: nat)
    requires Fits(s, off, pointStep, |a|) && |a| == |b|
    requires forall q: nat :: q < |a| && !(off <= q < off + pointStep && IsColor(s.color, q - off)) ==> a[q] == b[q]
    ensures PositionAt(a, off, s, bigEndian, pointStep) == PositionAt(b, off, s, bigEndian, pointStep)
  {
    WordFrame(a, b, off + s.x, bigEndian);
    WordFrame(a, b, off + s.y, bigEndian);
    WordFrame(a, b, off + s.z, bigEndian);
  }

  // ----- Restoring all points -----

  // The geometry, mask and slots of one layout
  ghost predicate Consistent(g: Geometry, mask: seq<bool>, s: Slots) {
    && Laid(g, mask) && WellPlaced(s, g.pointStep)
    && forall b: nat :: b < g.pointStep ==> (mask[b] <==> Encoded(s, b))
  }

  // The data holds the point at the place its index names
  ghost predicate HoldsAt(g: Geometry, s: Slots, bigEndian: bool, d: seq<Byte>, p: GeometryPoint) {
    && g.width > 0
    && Fits(s, PointDataOffset(g, p.index), g.pointStep, |d|)
    && HoldsPoint(d, PointDataOffset(g, p.index), s, bigEndian, g.pointStep, p)
  }

  // Writing one point changes no side byte.
  lemma WriteKeepsSide(g: Geometry, mask: seq<bool>, s: Slots, index: nat, a: seq<Byte>, b: seq<Byte>)
    requires Consistent(g, mask, s)
    requires OnlyEncoded(a, b, PointDataOffset(g, index), s, g.pointStep)
    ensures SameSide(g, mask, a, b)
  {
    var off := PointDataOffset(g, index);
    forall q: nat | q < |a| && IsSide(g, mask, q)
      ensures a[q] == b[q]
    {
      if off <= q < off + g.pointStep {
        PointByteSide(g, mask, index / g.width, index % g.width, q - off);
      }
    }
  }

  // Writing one point leaves what another holds.
  lemma WriteKeepsOthers(g: Geometry, s: Slots, bigEndian: bool, index: nat,
                         a: seq<Byte>, b: seq<Byte>, p: GeometryPoint)
    requires g.RowsFit() && g.width > 0 && p.index != index
    requires OnlyEncoded(a, b, PointDataOffset(g, index), s, g.pointStep)
    requires HoldsAt(g, s, bigEndian, a, p)
    ensures HoldsAt(g, s, bigEndian, b, p)
  {
    if p.index < index {
      OffsetsApart(g, p.index, index);
    } else {
      OffsetsApart(g, index, p.index);
    }
    HoldsFrame(a, b, PointDataOffset(g, p.index), s, bigEndian, g.pointStep, p);
  }

  // n distinct indices below n leave none out.
  lemma Pigeonhole(points: seq<GeometryPoint>, n: nat, i: nat)
    requires IndicesPermute(points, n) && i < n
    ensures exists k :: 0 <= k < n && points[k].index == i
  {
    var hit := IndexSet(points, n);
    IndexSetSize(points, n, n);
    if !exists k :: 0 <= k < n && points[k].index == i {
      assert hit <= Below(n) - {i};
      SubsetSize(hit, Below(n) - {i});
    }
  }

  ghost function IndexSet(points: seq<GeometryPoint>, n: nat): set<nat>
    requires n <= |points|
  {
    set k: nat | k < n :: points[k].index
  }

  lemma {:induction false} IndexSetSize(points: seq<GeometryPoint>, k: nat, n: nat)
    requires IndicesPermute(points, n) && k <= n
    ensures |IndexSet(points, k)| == k
  {
    if k > 0 {
      IndexSetSize(points, k - 1, n);
      var last := points[k - 1].index;
      assert last !in IndexSet(points, k - 1);
      assert IndexSet(points, k) == IndexSet(points, k - 1) + {last};
    }
  }

  function Below(n: nat): (all: set<nat>)
    ensures |all| == n
    ensures forall i: nat :: i in all <==> i < n
  {
    if n == 0 then {} else Below(n - 1) + {n - 1}
  }

  lemma {:induction false} SubsetSize(a: set<nat>, b: set<nat>)
    requires a <= b
    ensures |a| <= |b|
  {
    if a != {} {
      var x :| x in a;
      SubsetSize(a - {x}, b - {x});
    }
  }

  method RestoreOne(points: seq<GeometryPoint>, k: nat, hasColor: bool, g: Geometry, ghost mask: seq<bool>,
                    s: Slots, bigEndian: bool, data: array<Byte>, ghost base: seq<Byte>)
    requires Consistent(g, mask, s) && data.Length == g.DataSize() == |base|
    requires k < |points| && points[k].index < g.PointCount() && (hasColor <==> s.color != NoSlots)
    requires SameSide(g, mask, base, data[..])
    requires forall j :: 0 <= j < k ==> HoldsAt(g, s, bigEndian, data[..], points[j])
    requires forall j :: 0 <= j < k ==> points[j].index != points[k].index
    modifies data
    ensures SameSide(g, mask, base, data[..])
    ensures forall j :: 0 <= j <= k ==> HoldsAt(g, s, bigEndian, data[..], points[j])
  {
    var index := points[k].index;
    IndexInGrid(g, index);
    OffsetInData(g, index);
    ghost var was := data[..];
    WritePoint(data, PointDataOffset(g, index), s, bigEndian, g.pointStep, points[k], hasColor);
    WriteKeepsSide(g, mask, s, index, was, data[..]);
    forall j | 0 <= j < k
      ensures HoldsAt(g, s, bigEndian, data[..], points[j])
    {
      WriteKeepsOthers(g, s, bigEndian, index, was, data[..], points[j]);
    }
  }

  // restored[i] says whether one of the first k points carried index i
  ghost predicate Tracks(restored: seq<bool>, points: seq<GeometryPoint>, k: nat)
    requires k <= |points|
  {
    && (forall i :: 0 <= i < |restored| ==> (restored[i] <==> exists j :: 0 <= j < k && points[j].index == i))
    && (forall j :: 0 <= j < k ==> points[j].index < |restored|)
    && (forall i, j :: 0 <= i < j < k ==> points[i].index != points[j].index)
  }

  lemma TracksStep(restored: seq<bool>, points: seq<GeometryPoint>, k: nat)
    requires k < |points| && Tracks(restored, points, k)
    requires points[k].index < |restored| && !restored[points[k].index]
    ensures Tracks(restored[points[k].index := true], points, k + 1)
    ensures forall j :: 0 <= j < k ==> points[j].index != points[k].index
  {
    var next := restored[points[k].index := true];
    forall i | 0 <= i < |next|
      ensures next[i] <==> exists j :: 0 <= j < k + 1 && points[j].index == i
    {
      if i == points[k].index {
        assert points[k].index == i;
      }
    }
  }

  lemma TracksAll(restored: seq<bool>, points: seq<GeometryPoint>)
    requires Tracks(restored, points, |points|) && |restored| == |points|
    ensures IndicesPermute(points, |points|) && false !in restored
  {
    forall i | 0 <= i < |restored|
      ensures restored[i]
    {
      Pigeonhole(points, |points|, i);
    }
  }

  method RestorePoints(points: seq<GeometryPoint>, hasColor: bool, g: Geometry, ghost mask: seq<bool>,
                       s: Slots, bigEndian: bool, data: array<Byte>)
    returns (ok: bool)
    requires Consistent(g, mask, s) && data.Length == g.DataSize()
    requires |points| == g.PointCount() && (hasColor <==> s.color != NoSlots)
    modifies data
    ensures ok <==> IndicesPermute(points, g.PointCount())
    ensures ok ==> SameSide(g, mask, old(data[..]), data[..])
    ensures ok ==> forall k :: 0 <= k < |points| ==> HoldsAt(g, s, bigEndian, data[..], points[k])
  {
    var restored := seq(g.PointCount(), _ => false);
    ghost var base := data[..];
    for k := 0 to |points|
      invariant |restored| == g.PointCount() && Tracks(restored, points, k)
      invariant SameSide(g, mask, base, data[..])
      invariant forall j :: 0 <= j < k ==> HoldsAt(g, s, bigEndian, data[..], points[j])
    {
      if points[k].index >= g.PointCount() || restored[points[k].index] {
        return false;
      }
      TracksStep(restored, points, k);
      restored := restored[points[k].index := true];
      RestoreOne(points, k, hasColor, g, mask, s, bigEndian, data, base);
    }
    // The final search for a point left out cannot succeed.
    TracksAll(restored, points);
    if false in restored {
      assert false;
    }
    ok := true;
  }

  // ----- Decoding -----

  predicate TypeAgrees(pointType: string, color: ColorLayout) {
    pointType == if color == NoColor then "xyz" else "xyzrgb"
  }

  function MaskOfLayout(fields: seq<PointField>, pointStep: nat): seq<bool>
    requires HasPosition(fields, pointStep)
  {
    LayoutOf(fields, pointStep).mask
  }

  lemma LayoutIsConsistent(g: Geometry, fields: seq<PointField>)
    requires StorageValid(g, g.DataSize()) && g.PointCount() > 0 && Acceptable(fields, g.pointStep)
    ensures g.RowsFit() && g.width > 0 && Laid(g, MaskOfLayout(fields, g.pointStep))
    ensures Consistent(g, MaskOfLayout(fields, g.pointStep), SlotsOf(fields, g.pointStep))
    ensures ChooseColor(fields, g.pointStep) == NoColor <==> SlotsOf(fields, g.pointStep).color == NoSlots
  {
    WidthPositive(g);
    SlotsPlaced(fields, g.pointStep);
    forall b: nat | b < g.pointStep
      ensures MaskOfLayout(fields, g.pointStep)[b] <==> Encoded(SlotsOf(fields, g.pointStep), b)
    {
      MaskIsSlots(fields, g.pointStep, b);
    }
  }

  lemma WidthPositive(g: Geometry)
    requires g.PointCount() > 0 && g.RowsFit() && g.pointStep > 0
    ensures g.width > 0 && g.height > 0 && g.rowStep > 0
  {
    MulMonotone(g.pointStep, 1, g.width);
  }

  // The clouds Decode accepts when there are points
  ghost predicate PointsDecodable(input: EncodedPointCloud, codec: GeometryCodec) {
    var g := input.geometry;
    && Acceptable(input.fields, g.pointStep)
    && g.RowsFit()
    && TypeAgrees(input.pointType, ChooseColor(input.fields, g.pointStep))
    && |input.sidecar| == ExpectedLength(g, MaskOfLayout(input.fields, g.pointStep))
    && input.payload != []
    && codec.decode(input.payload).Some?
    && var cloud := codec.decode(input.payload).value;
       && cloud.hasPosition && cloud.hasIndex
       && (ChooseColor(input.fields, g.pointStep) != NoColor ==> cloud.hasColor)
       && IndicesPermute(cloud.points, g.PointCount())
  }

  ghost predicate Decodable(input: EncodedPointCloud, codec: GeometryCodec) {
    && input.formatVersion == FORMAT_VERSION
    && StorageValid(input.geometry, input.geometry.DataSize())
    && if input.geometry.PointCount() == 0 then
         input.payload == [] && |input.sidecar| == input.geometry.DataSize()
       else
         PointsDecodable(input, codec)
  }

  // The data Decode builds: the sidecar at the side positions, every point where its index says
  ghost predicate DecodedData(g: Geometry, fields: seq<PointField>, bigEndian: bool, sidecar: seq<Byte>,
                              points: seq<GeometryPoint>, data: seq<Byte>) {
    && Acceptable(fields, g.pointStep) && g.rowStep > 0
    && |data| == g.DataSize()
    && SideBytes(g, MaskOfLayout(fields, g.pointStep), data) == sidecar
    && forall k :: 0 <= k < |points| ==> HoldsAt(g, SlotsOf(fields, g.pointStep), bigEndian, data, points[k])
  }

  ghost predicate Decodes(input: EncodedPointCloud, codec: GeometryCodec, m: PointCloud2) {
    && m.header == input.header && m.geometry == input.geometry && m.fields == input.fields
    && m.isBigEndian == input.isBigEndian && m.isDense == input.isDense
    && if input.geometry.PointCount() == 0 then
         m.data == input.sidecar
       else
         && codec.decode(input.payload).Some?
         && DecodedData(input.geometry, input.fields, input.isBigEndian, input.sidecar,
                        codec.decode(input.payload).value.points, m.data)
  }

  // A colour attribute in a cloud whose layout has no colour would be written through a
  // null field: the geometry codec is trusted not to return one.
  ghost predicate ColorTrusted(input: EncodedPointCloud, codec: GeometryCodec) {
    input.geometry.PointCount() > 0
    && codec.decode(input.payload).Some? && codec.decode(input.payload).value.hasColor
    && HasPosition(input.fields, input.geometry.pointStep)
    ==> ChooseColor(input.fields, input.geometry.pointStep) != NoColor
  }

  method DecodePoints(input: EncodedPointCloud, codec: GeometryCodec) returns (data: Option<seq<Byte>>)
    requires StorageValid(input.geometry, input.geometry.DataSize()) && input.geometry.PointCount() > 0
    requires ColorTrusted(input, codec)
    ensures data.Some? <==> PointsDecodable(input, codec)
    ensures data.Some? ==> DecodedData(input.geometry, input.fields, input.isBigEndian, input.sidecar,
                                       codec.decode(input.payload).value.points, data.value)
  {
    var g := input.geometry;
    var parsed := ParseLayout(input.fields, g.pointStep);
    if parsed.None? {
      return None;
    }
    var layout, slots := parsed.value, SlotsOf(input.fields, g.pointStep);
    if !TypeAgrees(input.pointType, layout.color) {
      return None;
    }
    LayoutIsConsistent(g, input.fields);
    var bytes := new Byte[g.DataSize()](_ => 0);
    var restored := RestoreSidecar(input.sidecar, g, layout.mask, bytes);
    if !restored || input.payload == [] {
      return None;
    }
    ghost var base := bytes[..];
    var decoded := codec.decode(input.payload);
    if decoded.None? || |decoded.value.points| != g.PointCount() {
      return None;
    }
    var cloud := decoded.value;
    if !cloud.hasPosition || !cloud.hasIndex || (layout.color != NoColor && !cloud.hasColor) {
      return None;
    }
    var complete := RestorePoints(cloud.points, cloud.hasColor, g, layout.mask, slots, input.isBigEndian, bytes);
    if !complete {
      return None;
    }
    SideBytesDetermine(g, layout.mask, base, bytes[..]);
    data := Some(bytes[..]);
  }

  method Decode(input: EncodedPointCloud, codec: GeometryCodec) returns (message: Option<PointCloud2>)
    requires ColorTrusted(input, codec)
    ensures message.Some? <==> Decodable(input, codec)
    ensures message.Some? ==> Decodes(input, codec, message.value)
  {
    var g := input.geometry;
    if input.formatVersion != FORMAT_VERSION || !StorageValid(g, g.DataSize()) {
      return None;
    }
    var m := PointCloud2(input.header, g, input.fields, input.isBigEndian, input.isDense, []);
    if g.PointCount() == 0 {
      if input.payload != [] || |input.sidecar| != g.DataSize() {
        return None;
      }
      return Some(m.(data := input.sidecar));
    }
    var data := DecodePoints(input, codec);
    if data.None? {
      return None;
    }
    message := Some(m.(data := data.value));
  }

  // ----- Encoding -----

  function SubmittedPoint(m: PointCloud2, s: Slots, i: nat): GeometryPoint
    requires m.geometry.width > 0 && i < 0x1_0000_0000
    requires Fits(s, PointDataOffset(m.geometry, i), m.geometry.pointStep, |m.data|)
  {
    var off := PointDataOffset(m.geometry, i);
    GeometryPoint(PositionAt(m.data, off, s, m.isBigEndian, m.geometry.pointStep), i,
                  if s.color == NoSlots then Color(0, 0, 0, 0)
                  else ReadColor(m.data, off, s, m.isBigEndian, m.geometry.pointStep))
  }

  // The points of the message in index order
  ghost predicate Submitted(m: PointCloud2, s: Slots, points: seq<GeometryPoint>) {
    && m.geometry.width > 0
    && |points| == m.geometry.PointCount() <= INT32_MAX
    && forall i :: 0 <= i < |points| ==>
         && Fits(s, PointDataOffset(m.geometry, i), m.geometry.pointStep, |m.data|)
         && points[i] == SubmittedPoint(m, s, i)
  }

  lemma SubmittedUnique(m: PointCloud2, s: Slots, a: seq<GeometryPoint>, b: seq<GeometryPoint>)
    requires Submitted(m, s, a) && Submitted(m, s, b)
    ensures a == b
  {
    forall i | 0 <= i < |a|
      ensures a[i] == b[i]
    {
    }
  }

  ghost predicate Encodable(m: PointCloud2) {
    && StorageValid(m.geometry, |m.data|)
    && (m.geometry.PointCount() > 0 ==> Acceptable(m.fields, m.geometry.pointStep))
  }

  // The metadata Encode copies
  ghost predicate SameMetadata(m: PointCloud2, e: EncodedPointCloud) {
    && e.header == m.header && e.geometry == m.geometry && e.fields == m.fields
    && e.isBigEndian == m.isBigEndian && e.isDense == m.isDense
    && e.sourceStamp == m.header.stamp && e.frameId == m.header.frameId
  }

  // What a successful Encode produces
  ghost predicate EncodesTo(m: PointCloud2, codec: GeometryCodec, e: EncodedPointCloud) {
    && Encodable(m)
    && e.codec == "draco" && e.formatVersion == FORMAT_VERSION && SameMetadata(m, e)
    && if m.geometry.PointCount() == 0 then
         e.pointType == "xyz" && e.payload == [] && e.sidecar == m.data
       else
         var color := ChooseColor(m.fields, m.geometry.pointStep);
         && m.geometry.rowStep > 0
         && TypeAgrees(e.pointType, color)
         && e.sidecar == SideBytes(m.geometry, MaskOfLayout(m.fields, m.geometry.pointStep), m.data)
         && exists points ::
              && Submitted(m, SlotsOf(m.fields, m.geometry.pointStep), points)
              && codec.encode(points, color != NoColor) == Some(e.payload)
  }

  method CollectPoints(m: PointCloud2, s: Slots) returns (points: seq<GeometryPoint>)
    requires m.geometry.width > 0 && m.geometry.RowsFit() && WellPlaced(s, m.geometry.pointStep)
    requires |m.data| == m.geometry.DataSize() && m.geometry.PointCount() <= INT32_MAX
    ensures Submitted(m, s, points)
  {
    points := [];
    for i := 0 to m.geometry.PointCount()
      invariant |points| == i
      invariant forall j :: 0 <= j < i ==>
                  && Fits(s, PointDataOffset(m.geometry, j), m.geometry.pointStep, |m.data|)
                  && points[j] == SubmittedPoint(m, s, j)
    {
      IndexInGrid(m.geometry, i);
      OffsetInData(m.geometry, i);
      points := points + [SubmittedPoint(m, s, i)];
    }
  }

  method Encode(m: PointCloud2, codec: GeometryCodec) returns (encoded: Option<EncodedPointCloud>)
    ensures encoded.Some? ==> EncodesTo(m, codec, encoded.value)
    ensures encoded.None? ==> !exists e :: EncodesTo(m, codec, e)
  {
    var g := m.geometry;
    if !StorageValid(g, |m.data|) {
      return None;
    }
    var e := EncodedPointCloud("draco", FORMAT_VERSION, "xyz", m.header, g, m.fields, m.isBigEndian,
                               m.isDense, m.header.stamp, m.header.frameId, [], []);
    if g.PointCount() == 0 {
      return Some(e.(sidecar := m.data));
    }
    var parsed := ParseLayout(m.fields, g.pointStep);
    if parsed.None? {
      return None;
    }
    var layout, slots := parsed.value, SlotsOf(m.fields, g.pointStep);
    LayoutIsConsistent(g, m.fields);
    var ok, sidecar := ExtractSidecar(g, layout.mask, m.data);
    var points := CollectPoints(m, slots);
    var payload := codec.encode(points, layout.color != NoColor);
    if payload.None? {
      forall e' | EncodesTo(m, codec, e')
        ensures false
      {
        var points' :| Submitted(m, slots, points')
                       && codec.encode(points', layout.color != NoColor) == Some(e'.payload);
        SubmittedUnique(m, slots, points, points');
      }
      return None;
    }
    encoded := Some(e.(pointType := if layout.color == NoColor then "xyz" else "xyzrgb",
                       sidecar := sidecar, payload := payload.value));
  }
}
