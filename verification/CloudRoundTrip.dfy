/**
 What survives a trip through Encode and Decode:
 transport/draco_pointcloud_codec.cpp, lines 412-601.
 */
module CloudRoundTrip {
  import opened Common
  import opened Arithmetic
  import opened PointLayout
  import opened PointSlots
  import opened Sidecar
  import opened PointCloudCodec

  // ----- Every encoded byte belongs to one point -----

  lemma CellIndex(g: Geometry, row: nat, column: nat)
    requires g.width > 0 && column < g.width && row < g.height
    ensures var i := g.width * row + column;
            i < g.PointCount() && i / g.width == row && i % g.width == column
  {
    QuotientUnique(g.width * row + column, g.width, row, column);
    MulMonotone(g.width, row + 1, g.height);
  }

  lemma RowInData(g: Geometry, q: nat)
    requires g.rowStep > 0 && q < g.DataSize()
    ensures q / g.rowStep < g.height
  {
    if q / g.rowStep >= g.height {
      MulMonotone(g.rowStep, g.height, q / g.rowStep);
    }
  }

  lemma ColumnOf(g: Geometry, r: nat)
    requires g.pointStep > 0 && r < g.width * g.pointStep
    ensures r / g.pointStep < g.width
  {
    if r / g.pointStep >= g.width {
      MulMonotone(g.pointStep, g.width, r / g.pointStep);
    }
  }

  lemma EncodedInRow(g: Geometry, mask: seq<bool>, q: nat)
    requires Laid(g, mask) && !IsSide(g, mask, q)
    ensures q % g.rowStep < g.width * g.pointStep && mask[q % g.rowStep % g.pointStep]
  {
  }

  lemma CellOffset(g: Geometry, row: nat, column: nat)
    requires g.width > 0 && column < g.width && row < g.height
    ensures g.width * row + column < g.PointCount()
    ensures PointDataOffset(g, g.width * row + column) == PointAt(g, row, column)
  {
    CellIndex(g, row, column);
  }

  // A position that is not a side byte is an encoded byte of some point.
  lemma EncodedPosition(g: Geometry, mask: seq<bool>, q: nat) returns (index: nat, byte: nat)
    requires Laid(g, mask) && q < g.DataSize() && !IsSide(g, mask, q)
    ensures index < g.PointCount() && byte == q % g.rowStep % g.pointStep < g.pointStep
    ensures mask[byte] && q == PointDataOffset(g, index) + byte
  {
    EncodedInRow(g, mask, q);
    RowInData(g, q);
    index := RowPosition(g, q / g.rowStep, q % g.rowStep);
    byte := q % g.rowStep % g.pointStep;
  }

  lemma RowPosition(g: Geometry, row: nat, r: nat) returns (index: nat)
    requires g.pointStep > 0 && g.width > 0 && row < g.height && r < g.width * g.pointStep
    ensures index < g.PointCount()
    ensures g.rowStep * row + r == PointDataOffset(g, index) + r % g.pointStep
  {
    ColumnOf(g, r);
    CellOffset(g, row, r / g.pointStep);
    index := g.width * row + r / g.pointStep;
  }

  // ----- Equal values mean equal bytes -----

  lemma PositionBytes(a: seq<Byte>, b: seq<Byte>, off: nat, s: Slots, bigEndian: bool, step: nat, byte: nat)
    requires Fits(s, off, step, |a|) && Fits(s, off, step, |b|)
    requires PositionAt(a, off, s, bigEndian, step) == PositionAt(b, off, s, bigEndian, step)
    requires IsXyz(s, byte)
    ensures off + byte < |a| && off + byte < |b| && a[off + byte] == b[off + byte]
  {
    WordInjective(a, b, off + s.x, bigEndian);
    WordInjective(a, b, off + s.y, bigEndian);
    WordInjective(a, b, off + s.z, bigEndian);
  }

  lemma ColorBytesEqual(a: seq<Byte>, b: seq<Byte>, off: nat, s: Slots, bigEndian: bool, step: nat,
                        c: Color, byte: nat)
    requires Fits(s, off, step, |a|) && Fits(s, off, step, |b|)
    requires HoldsColor(a, off, s, bigEndian, step, c) && HoldsColor(b, off, s, bigEndian, step, c)
    requires IsColor(s.color, byte)
    ensures off + byte < |a| && off + byte < |b| && a[off + byte] == b[off + byte]
  {
    if s.color.PackedAt? {
      WordInjective(a, b, off + s.color.at, bigEndian);
    }
  }

  lemma OwnColor(d: seq<Byte>, off: nat, s: Slots, bigEndian: bool, step: nat)
    requires Fits(s, off, step, |d|) && s.color != NoSlots
    ensures HoldsColor(d, off, s, bigEndian, step, ReadColor(d, off, s, bigEndian, step))
  {
    if s.color.PackedAt? {
      PackUnpack(WordAt(d, off + s.color.at, bigEndian), Color(0, 0, 0, 0));
    }
  }

  // ----- Decoded data is determined, whatever the order of the points -----

  // The two lists give every index the same position and, where there is colour, colour.
  ghost predicate SamePoints(a: seq<GeometryPoint>, b: seq<GeometryPoint>, withColor: bool) {
    forall i, j :: 0 <= i < |a| && 0 <= j < |b| && a[i].index == b[j].index ==>
      a[i].position == b[j].position && (withColor ==> a[i].color == b[j].color)
  }

  lemma PointByteEqual(g: Geometry, s: Slots, bigEndian: bool, a: seq<Byte>, b: seq<Byte>,
                       p: GeometryPoint, r: GeometryPoint, byte: nat)
    requires HoldsAt(g, s, bigEndian, a, p) && HoldsAt(g, s, bigEndian, b, r)
    requires p.index == r.index && p.position == r.position
    requires s.color != NoSlots ==> p.color == r.color
    requires Encoded(s, byte)
    ensures var q := PointDataOffset(g, p.index) + byte;
            q < |a| && q < |b| && a[q] == b[q]
  {
    var off := PointDataOffset(g, p.index);
    if IsXyz(s, byte) {
      PositionBytes(a, b, off, s, bigEndian, g.pointStep, byte);
    } else {
      ColorBytesEqual(a, b, off, s, bigEndian, g.pointStep, p.color, byte);
    }
  }

  lemma EncodedByteUnique(g: Geometry, mask: seq<bool>, s: Slots, bigEndian: bool,
                          p: seq<GeometryPoint>, a: seq<Byte>, r: seq<GeometryPoint>, b: seq<Byte>, q: nat)
    requires Consistent(g, mask, s) && |a| == |b| == g.DataSize()
    requires forall k :: 0 <= k < |p| ==> HoldsAt(g, s, bigEndian, a, p[k])
    requires forall k :: 0 <= k < |r| ==> HoldsAt(g, s, bigEndian, b, r[k])
    requires IndicesPermute(p, g.PointCount()) && IndicesPermute(r, g.PointCount())
    requires SamePoints(p, r, s.color != NoSlots)
    requires q < |a| && !IsSide(g, mask, q)
    ensures a[q] == b[q]
  {
    var index, byte := EncodedPosition(g, mask, q);
    var i := IndexHolder(p, g.PointCount(), index);
    var j := IndexHolder(r, g.PointCount(), index);
    PointByteEqual(g, s, bigEndian, a, b, p[i], r[j], byte);
  }

  lemma IndexHolder(points: seq<GeometryPoint>, n: nat, index: nat) returns (k: nat)
    requires IndicesPermute(points, n) && index < n
    ensures k < |points| && points[k].index == index
  {
    Pigeonhole(points, n, index);
    k :| 0 <= k < |points| && points[k].index == index;
  }

  lemma DecodedDataUnique(g: Geometry, fields: seq<PointField>, bigEndian: bool, sidecar: seq<Byte>,
                          p: seq<GeometryPoint>, a: seq<Byte>, r: seq<GeometryPoint>, b: seq<Byte>)
    requires StorageValid(g, g.DataSize()) && g.PointCount() > 0
    requires DecodedData(g, fields, bigEndian, sidecar, p, a)
    requires DecodedData(g, fields, bigEndian, sidecar, r, b)
    requires IndicesPermute(p, g.PointCount()) && IndicesPermute(r, g.PointCount())
    requires SamePoints(p, r, ChooseColor(fields, g.pointStep) != NoColor)
    ensures a == b
  {
    var mask, s := MaskOfLayout(fields, g.pointStep), SlotsOf(fields, g.pointStep);
    LayoutIsConsistent(g, fields);
    SideBytesDetermine(g, mask, a, b);
    forall q: nat | q < |a|
      ensures a[q] == b[q]
    {
      if !IsSide(g, mask, q) {
        EncodedByteUnique(g, mask, s, bigEndian, p, a, r, b, q);
      }
    }
  }

  // Decode's result is fixed by its contract.
  lemma DecodingUnique(input: EncodedPointCloud, codec: GeometryCodec, m: PointCloud2, n: PointCloud2)
    requires Decodable(input, codec) && Decodes(input, codec, m) && Decodes(input, codec, n)
    ensures m == n
  {
    if input.geometry.PointCount() > 0 {
      var points := codec.decode(input.payload).value.points;
      assert SamePoints(points, points, true);
      DecodedDataUnique(input.geometry, input.fields, input.isBigEndian, input.sidecar,
                        points, m.data, points, n.data);
    }
  }

  // ----- The round trip -----

  // Position q of the data belongs to the x, y or z of a point
  predicate IsXyzPosition(g: Geometry, s: Slots, q: nat)
    requires g.pointStep > 0 && g.rowStep > 0
  {
    q % g.rowStep < g.width * g.pointStep && IsXyz(s, q % g.rowStep % g.pointStep)
  }

  // out is m with every position replaced by its quantised image and nothing else changed
  ghost predicate Quantized(m: PointCloud2, points: seq<GeometryPoint>, quantize: Quantizer, out: PointCloud2) {
    var g := m.geometry;
    && Acceptable(m.fields, g.pointStep) && g.rowStep > 0 && g.width > 0
    && out == m.(data := out.data) && |out.data| == |m.data|
    && (forall q: nat :: q < |m.data| && !IsXyzPosition(g, SlotsOf(m.fields, g.pointStep), q)
          ==> out.data[q] == m.data[q])
    && (forall i :: 0 <= i < g.PointCount() ==>
          && Fits(SlotsOf(m.fields, g.pointStep), PointDataOffset(g, i), g.pointStep, |out.data|)
          && PositionAt(out.data, PointDataOffset(g, i), SlotsOf(m.fields, g.pointStep), m.isBigEndian, g.pointStep)
             == quantize(points, i))
  }

  // The points behind an encoding, and that they come back reordered
  lemma EncodedPoints(m: PointCloud2, codec: GeometryCodec, quantize: Quantizer, e: EncodedPointCloud)
    returns (points: seq<GeometryPoint>)
    requires Faithful(codec, quantize) && EncodesTo(m, codec, e) && m.geometry.PointCount() > 0
    ensures Submitted(m, SlotsOf(m.fields, m.geometry.pointStep), points) && codec.decode(e.payload).Some?
    ensures Reorders(points, ChooseColor(m.fields, m.geometry.pointStep) != NoColor, quantize,
                     codec.decode(e.payload).value)
  {
    var withColor := ChooseColor(m.fields, m.geometry.pointStep) != NoColor;
    points :| Submitted(m, SlotsOf(m.fields, m.geometry.pointStep), points)
              && codec.encode(points, withColor) == Some(e.payload);
    assert Numbered(points);
  }

  // Decode accepts whatever Encode produced.
  lemma EncodedIsDecodable(m: PointCloud2, codec: GeometryCodec, quantize: Quantizer, e: EncodedPointCloud)
    requires Faithful(codec, quantize) && EncodesTo(m, codec, e)
    ensures Decodable(e, codec)
    ensures m.geometry.PointCount() > 0 ==> ColorTrusted(e, codec)
  {
    var g := m.geometry;
    if g.PointCount() > 0 {
      LayoutIsConsistent(g, m.fields);
      var mask := MaskOfLayout(m.fields, g.pointStep);
      SideBytesLength(g, mask, m.data);
      SidecarLength(g, mask);
      var points := EncodedPoints(m, codec, quantize, e);
    }
  }

  // The point restored for an index, against the point submitted under it
  lemma RestoredPoint(points: seq<GeometryPoint>, withColor: bool, quantize: Quantizer, cloud: GeometryCloud, i: nat)
    returns (k: nat)
    requires Reorders(points, withColor, quantize, cloud) && i < |points|
    ensures k < |cloud.points| && cloud.points[k].index == i
    ensures cloud.points[k].position == quantize(points, i)
    ensures withColor ==> cloud.points[k].color == points[i].color
  {
    k := IndexHolder(cloud.points, |points|, i);
  }

  // An encoded byte outside x, y and z is a colour byte, and comes back as it was.
  lemma ColorByteKept(m: PointCloud2, mask: seq<bool>, s: Slots, points: seq<GeometryPoint>,
                      quantize: Quantizer, cloud: GeometryCloud, data: seq<Byte>, q: nat)
    requires Consistent(m.geometry, mask, s) && |data| == |m.data| == m.geometry.DataSize()
    requires Submitted(m, s, points) && Reorders(points, s.color != NoSlots, quantize, cloud)
    requires forall k :: 0 <= k < |cloud.points| ==> HoldsAt(m.geometry, s, m.isBigEndian, data, cloud.points[k])
    requires q < |data| && !IsSide(m.geometry, mask, q) && !IsXyzPosition(m.geometry, s, q)
    ensures data[q] == m.data[q]
  {
    var g := m.geometry;
    var index, byte := EncodedPosition(g, mask, q);
    EncodedInRow(g, mask, q);
    var k := RestoredPoint(points, s.color != NoSlots, quantize, cloud, index);
    assert HoldsAt(g, s, m.isBigEndian, data, cloud.points[k]);
    var off := PointDataOffset(g, index);
    OwnColor(m.data, off, s, m.isBigEndian, g.pointStep);
    ColorBytesEqual(data, m.data, off, s, m.isBigEndian, g.pointStep, points[index].color, byte);
  }

  // A byte outside x, y and z is the one in the message.
  lemma OtherBytesKept(m: PointCloud2, points: seq<GeometryPoint>, quantize: Quantizer, cloud: GeometryCloud,
                       data: seq<Byte>, q: nat)
    requires Encodable(m) && m.geometry.PointCount() > 0 && m.geometry.rowStep > 0
    requires Submitted(m, SlotsOf(m.fields, m.geometry.pointStep), points)
    requires Reorders(points, ChooseColor(m.fields, m.geometry.pointStep) != NoColor, quantize, cloud)
    requires DecodedData(m.geometry, m.fields, m.isBigEndian,
                         SideBytes(m.geometry, MaskOfLayout(m.fields, m.geometry.pointStep), m.data),
                         cloud.points, data)
    requires q < |data| && !IsXyzPosition(m.geometry, SlotsOf(m.fields, m.geometry.pointStep), q)
    ensures data[q] == m.data[q]
  {
    var mask := MaskOfLayout(m.fields, m.geometry.pointStep);
    LayoutIsConsistent(m.geometry, m.fields);
    SideBytesDetermine(m.geometry, mask, data, m.data);
    if !IsSide(m.geometry, mask, q) {
      ColorByteKept(m, mask, SlotsOf(m.fields, m.geometry.pointStep), points, quantize, cloud, data, q);
    }
  }

  lemma PositionsQuantized(m: PointCloud2, points: seq<GeometryPoint>, withColor: bool, quantize: Quantizer,
                           cloud: GeometryCloud, sidecar: seq<Byte>, data: seq<Byte>, i: nat)
    requires Reorders(points, withColor, quantize, cloud)
    requires DecodedData(m.geometry, m.fields, m.isBigEndian, sidecar, cloud.points, data)
    requires i < |points|
    ensures HoldsAtIndex(m, quantize(points, i), data, i)
  {
    var k := RestoredPoint(points, withColor, quantize, cloud, i);
    assert HoldsAt(m.geometry, SlotsOf(m.fields, m.geometry.pointStep), m.isBigEndian, data, cloud.points[k]);
  }

  ghost predicate HoldsAtIndex(m: PointCloud2, p: Position, data: seq<Byte>, i: nat) {
    var g := m.geometry;
    && Acceptable(m.fields, g.pointStep) && g.width > 0
    && Fits(SlotsOf(m.fields, g.pointStep), PointDataOffset(g, i), g.pointStep, |data|)
    && PositionAt(data, PointDataOffset(g, i), SlotsOf(m.fields, g.pointStep), m.isBigEndian, g.pointStep) == p
  }

  // Data decoded from the reordered points of a message is the message's with its positions quantised.
  lemma DecodedIsQuantized(m: PointCloud2, points: seq<GeometryPoint>, quantize: Quantizer, cloud: GeometryCloud,
                           out: PointCloud2)
    requires Encodable(m) && m.geometry.PointCount() > 0 && m.geometry.rowStep > 0
    requires Submitted(m, SlotsOf(m.fields, m.geometry.pointStep), points)
    requires Reorders(points, ChooseColor(m.fields, m.geometry.pointStep) != NoColor, quantize, cloud)
    requires out == m.(data := out.data)
    requires DecodedData(m.geometry, m.fields, m.isBigEndian,
                         SideBytes(m.geometry, MaskOfLayout(m.fields, m.geometry.pointStep), m.data),
                         cloud.points, out.data)
    ensures Quantized(m, points, quantize, out)
  {
    var g, s := m.geometry, SlotsOf(m.fields, m.geometry.pointStep);
    forall q: nat | q < |m.data| && !IsXyzPosition(g, s, q)
      ensures out.data[q] == m.data[q]
    {
      OtherBytesKept(m, points, quantize, cloud, out.data, q);
    }
    forall i | 0 <= i < g.PointCount()
      ensures HoldsAtIndex(m, quantize(points, i), out.data, i)
    {
      PositionsQuantized(m, points, ChooseColor(m.fields, g.pointStep) != NoColor, quantize, cloud,
                         SideBytes(g, MaskOfLayout(m.fields, g.pointStep), m.data), out.data, i);
    }
  }

  // Decoding an encoded cloud gives back the message with its positions quantised: all
  // metadata, colours, side fields and row padding are exactly those of the message.
  lemma RoundTrip(m: PointCloud2, codec: GeometryCodec, quantize: Quantizer, e: EncodedPointCloud, out: PointCloud2)
    requires Faithful(codec, quantize) && EncodesTo(m, codec, e) && Decodes(e, codec, out)
    ensures m.geometry.PointCount() == 0 ==> out == m
    ensures m.geometry.PointCount() > 0 ==>
              forall points :: Submitted(m, SlotsOf(m.fields, m.geometry.pointStep), points)
                ==> Quantized(m, points, quantize, out)
  {
    if m.geometry.PointCount() > 0 {
      var points := EncodedPoints(m, codec, quantize, e);
      DecodedIsQuantized(m, points, quantize, codec.decode(e.payload).value, out);
      forall points' | Submitted(m, SlotsOf(m.fields, m.geometry.pointStep), points')
        ensures points' == points
      {
        SubmittedUnique(m, SlotsOf(m.fields, m.geometry.pointStep), points, points');
      }
    }
  }

  lemma ReorderedSame(points: seq<GeometryPoint>, withColor: bool, quantize: Quantizer,
                      a: GeometryCloud, b: GeometryCloud)
    requires Reorders(points, withColor, quantize, a) && Reorders(points, withColor, quantize, b)
    ensures SamePoints(a.points, b.points, withColor)
  {
  }

  // The order in which the geometry codec returns the points makes no difference.
  lemma OrderIrrelevant(m: PointCloud2, quantize: Quantizer,
                        codec: GeometryCodec, e: EncodedPointCloud, out: PointCloud2,
                        codec': GeometryCodec, e': EncodedPointCloud, out': PointCloud2)
    requires Faithful(codec, quantize) && EncodesTo(m, codec, e) && Decodes(e, codec, out)
    requires Faithful(codec', quantize) && EncodesTo(m, codec', e') && Decodes(e', codec', out')
    ensures out == out'
  {
    var g := m.geometry;
    if g.PointCount() > 0 {
      var points := EncodedPoints(m, codec, quantize, e);
      var points' := EncodedPoints(m, codec', quantize, e');
      SubmittedUnique(m, SlotsOf(m.fields, g.pointStep), points, points');
      var cloud, cloud' := codec.decode(e.payload).value, codec'.decode(e'.payload).value;
      ReorderedSame(points, ChooseColor(m.fields, g.pointStep) != NoColor, quantize, cloud, cloud');
      DecodedDataUnique(g, m.fields, m.isBigEndian, e.sidecar, cloud.points, out.data, cloud'.points, out'.data);
    }
  }

  // ----- The other way round -----

  // A decoded message would submit each point it was decoded from, at the place of its index.
  lemma DecodedPointResubmitted(input: EncodedPointCloud, codec: GeometryCodec, m: PointCloud2, k: nat)
    requires Decodable(input, codec) && Decodes(input, codec, m) && m.geometry.PointCount() > 0
    requires k < |codec.decode(input.payload).value.points|
    ensures var p := codec.decode(input.payload).value.points[k];
            var s := SlotsOf(m.fields, m.geometry.pointStep);
            && m.geometry.width > 0
            && Fits(s, PointDataOffset(m.geometry, p.index), m.geometry.pointStep, |m.data|)
            && var q := SubmittedPoint(m, s, p.index);
               && q.index == p.index && q.position == p.position
               && (s.color != NoSlots ==> SameColor(s.color, q.color, p.color))
  {
    var p := codec.decode(input.payload).value.points[k];
    var s := SlotsOf(m.fields, m.geometry.pointStep);
    assert HoldsAt(m.geometry, s, m.isBigEndian, m.data, p);
    if s.color != NoSlots {
      HeldColorRead(m.data, PointDataOffset(m.geometry, p.index), s, m.isBigEndian, m.geometry.pointStep, p.color);
    }
  }

  // A colour held is the colour read, alpha only where there is room for it.
  lemma HeldColorRead(d: seq<Byte>, off: nat, s: Slots, bigEndian: bool, pointStep: nat, c: Color)
    requires Fits(s, off, pointStep, |d|) && s.color != NoSlots && HoldsColor(d, off, s, bigEndian, pointStep, c)
    ensures SameColor(s.color, ReadColor(d, off, s, bigEndian, pointStep), c)
  {
    if s.color.PackedAt? {
      PackUnpack(WordAt(d, off + s.color.at, bigEndian), c);
    }
  }

  // Equal but for the alpha of a layout without one, which reads as 255
  predicate SameColor(slots: ColorSlots, read: Color, held: Color) {
    && read.red == held.red && read.green == held.green && read.blue == held.blue
    && read.alpha == if slots.SeparateAt? && slots.alpha.None? then 255 else held.alpha
  }

  // Re-encoding a decoded message with a geometry codec that yields the same payload gives the
  // encoded cloud back, but for the parts decoding does not look at.
  lemma DecodeThenEncode(input: EncodedPointCloud, codec: GeometryCodec, m: PointCloud2, codec': GeometryCodec)
    requires Decodable(input, codec) && Decodes(input, codec, m)
    requires m.geometry.PointCount() > 0 && HasPosition(m.fields, m.geometry.pointStep) ==>
               forall points :: Submitted(m, SlotsOf(m.fields, m.geometry.pointStep), points) ==>
                 codec'.encode(points, ChooseColor(m.fields, m.geometry.pointStep) != NoColor) == Some(input.payload)
    ensures var again := input.(codec := "draco", sourceStamp := input.header.stamp,
                                frameId := input.header.frameId);
            EncodesTo(m, codec', if m.geometry.PointCount() == 0 then again.(pointType := "xyz") else again)
  {
    if m.geometry.PointCount() > 0 {
      var g := m.geometry;
      LayoutIsConsistent(g, m.fields);
      var points := PointsOf(m, SlotsOf(m.fields, g.pointStep));
      assert codec'.encode(points, ChooseColor(m.fields, g.pointStep) != NoColor) == Some(input.payload);
    }
  }

  // Encode followed by Decode, run one after the other
  method Transfer(m: PointCloud2, codec: GeometryCodec, ghost quantize: Quantizer)
    returns (received: Option<PointCloud2>)
    requires Faithful(codec, quantize)
    ensures received.Some? <==> exists e :: EncodesTo(m, codec, e)
    ensures received.Some? && m.geometry.PointCount() == 0 ==> received.value == m
    ensures received.Some? && m.geometry.PointCount() > 0 ==>
              Acceptable(m.fields, m.geometry.pointStep)
              && forall points :: Submitted(m, SlotsOf(m.fields, m.geometry.pointStep), points)
                   ==> Quantized(m, points, quantize, received.value)
  {
    var encoded := Encode(m, codec);
    if encoded.None? {
      return None;
    }
    EncodedIsDecodable(m, codec, quantize, encoded.value);
    received := Decode(encoded.value, codec);
    RoundTrip(m, codec, quantize, encoded.value, received.value);
  }

  // ----- The assumption on the geometry codec can be met -----

  ghost function PointsOf(m: PointCloud2, s: Slots): (points: seq<GeometryPoint>)
    requires m.geometry.width > 0 && m.geometry.RowsFit() && WellPlaced(s, m.geometry.pointStep)
    requires |m.data| == m.geometry.DataSize() && m.geometry.PointCount() <= INT32_MAX
    ensures Submitted(m, s, points)
  {
    assert forall i: nat :: i < m.geometry.PointCount() ==>
        Fits(s, PointDataOffset(m.geometry, i), m.geometry.pointStep, |m.data|) by {
      forall i: nat | i < m.geometry.PointCount()
        ensures Fits(s, PointDataOffset(m.geometry, i), m.geometry.pointStep, |m.data|)
      {
        IndexInGrid(m.geometry, i);
        OffsetInData(m.geometry, i);
      }
    }
    seq(m.geometry.PointCount(), i requires 0 <= i < m.geometry.PointCount() => SubmittedPoint(m, s, i))
  }

  // A codec that knows one cloud, and hands it back in reverse order
  function OneCloudCodec(points: seq<GeometryPoint>, withColor: bool): GeometryCodec {
    GeometryCodec(
      (p: seq<GeometryPoint>, c: bool) => if p == points && c == withColor then Some([1]) else None,
      (b: seq<Byte>) => Some(GeometryCloud(Reversed(points), true, true, withColor)))
  }

  function Reversed(points: seq<GeometryPoint>): seq<GeometryPoint> {
    seq(|points|, i requires 0 <= i < |points| => points[|points| - 1 - i])
  }

  function ExactPosition(points: seq<GeometryPoint>, i: nat): Position {
    if i < |points| then points[i].position else Position(0, 0, 0)
  }

  lemma OneCloudCodecFaithful(points: seq<GeometryPoint>, withColor: bool)
    requires Numbered(points)
    ensures Faithful(OneCloudCodec(points, withColor), ExactPosition)
  {
    var codec := OneCloudCodec(points, withColor);
    var back := Reversed(points);
    assert IndicesPermute(back, |points|);
    assert Reorders(points, withColor, ExactPosition, GeometryCloud(back, true, true, withColor));
  }

  // Every message Encode can take has a faithful codec with which it does.
  lemma SomeCodecEncodes(m: PointCloud2) returns (codec: GeometryCodec, e: EncodedPointCloud)
    requires Encodable(m)
    ensures Faithful(codec, ExactPosition) && EncodesTo(m, codec, e)
  {
    e := EncodedPointCloud("draco", FORMAT_VERSION, "xyz", m.header, m.geometry, m.fields, m.isBigEndian,
                           m.isDense, m.header.stamp, m.header.frameId, [], m.data);
    if m.geometry.PointCount() == 0 {
      codec := OneCloudCodec([], false);
      OneCloudCodecFaithful([], false);
    } else {
      var g := m.geometry;
      LayoutIsConsistent(g, m.fields);
      var s, color := SlotsOf(m.fields, g.pointStep), ChooseColor(m.fields, g.pointStep);
      var points := PointsOf(m, s);
      codec := OneCloudCodec(points, color != NoColor);
      OneCloudCodecFaithful(points, color != NoColor);
      e := e.(pointType := if color == NoColor then "xyz" else "xyzrgb", payload := [1],
              sidecar := SideBytes(g, MaskOfLayout(m.fields, g.pointStep), m.data));
    }
  }
}
