/**
 What the point-cloud codec submits and restores, in bytes of the message:
 transport/draco_pointcloud_codec.cpp, lines 244-320, 400-406, 467-482 and 575-595.
 */
module PointBytes {
  import opened Common
  import opened PointLayout
  import opened PointSlots
  import opened Sidecar
  import opened PointCloudCodec
  import opened CloudRoundTrip

  // Where the field of this name starts in the point of this index
  function FieldPlace(g: Geometry, fields: seq<PointField>, name: string, index: nat): int
    requires g.width > 0 && FindField(fields, name).Some?
  {
    var row, column := index / g.width, index % g.width;
    row * g.rowStep + column * g.pointStep + fields[FindField(fields, name).value].offset
  }

  // The four bytes at this place are the value.
  predicate WordIn(d: seq<Byte>, at: int, bigEndian: bool, v: UInt32) {
    0 <= at && at + 4 <= |d| && IsWord(d[at..at + 4], bigEndian, v)
  }

  predicate ByteIn(d: seq<Byte>, at: int, b: Byte) {
    0 <= at < |d| && d[at] == b
  }

  // The field of this name holds the 32-bit value.
  predicate HoldsWord(d: seq<Byte>, g: Geometry, fields: seq<PointField>, name: string, index: nat,
                      bigEndian: bool, v: UInt32) {
    g.width > 0 && FindField(fields, name).Some? && WordIn(d, FieldPlace(g, fields, name, index), bigEndian, v)
  }

  // The field of this name holds the byte.
  predicate HoldsByte(d: seq<Byte>, g: Geometry, fields: seq<PointField>, name: string, index: nat, b: Byte) {
    g.width > 0 && FindField(fields, name).Some? && ByteIn(d, FieldPlace(g, fields, name, index), b)
  }

  function PackedValue(c: Color): UInt32 {
    c.alpha * 0x100_0000 + c.red * 0x1_0000 + c.green * 0x100 + c.blue
  }

  // The fields of the point's index hold its position and, as far as there is room, colour.
  ghost predicate PlainPoint(d: seq<Byte>, g: Geometry, fields: seq<PointField>, bigEndian: bool, p: GeometryPoint) {
    && HoldsWord(d, g, fields, "x", p.index, bigEndian, p.position.x)
    && HoldsWord(d, g, fields, "y", p.index, bigEndian, p.position.y)
    && HoldsWord(d, g, fields, "z", p.index, bigEndian, p.position.z)
    && PlainColor(d, g, fields, bigEndian, p)
  }

  ghost predicate PlainColor(d: seq<Byte>, g: Geometry, fields: seq<PointField>, bigEndian: bool, p: GeometryPoint) {
    if PackedQualifies(fields, "rgba", g.pointStep) then
      HoldsWord(d, g, fields, "rgba", p.index, bigEndian, PackedValue(p.color))
    else if PackedQualifies(fields, "rgb", g.pointStep) then
      HoldsWord(d, g, fields, "rgb", p.index, bigEndian, PackedValue(p.color))
    else SeparateQualifies(fields, g.pointStep) ==>
      && HoldsByte(d, g, fields, "r", p.index, p.color.red) && HoldsByte(d, g, fields, "g", p.index, p.color.green)
      && HoldsByte(d, g, fields, "b", p.index, p.color.blue)
      && (FindField(fields, "a").Some? ==> HoldsByte(d, g, fields, "a", p.index, p.color.alpha))
  }

  ghost predicate HasColor(fields: seq<PointField>, pointStep: nat) {
    PackedQualifies(fields, "rgba", pointStep) || PackedQualifies(fields, "rgb", pointStep)
    || SeparateQualifies(fields, pointStep)
  }

  lemma PlaceIsOffset(g: Geometry, fields: seq<PointField>, name: string, index: nat)
    requires g.width > 0 && FindField(fields, name).Some?
    ensures FieldPlace(g, fields, name, index)
         == PointDataOffset(g, index) + fields[FindField(fields, name).value].offset
  {
    var row, column := index / g.width, index % g.width;
    assert row * g.rowStep == g.rowStep * row && column * g.pointStep == g.pointStep * column;
  }

  // A word read at the offset of a field, wherever the point is
  lemma WordHeld(d: seq<Byte>, g: Geometry, fields: seq<PointField>, name: string, index: nat, bigEndian: bool,
                 off: nat, v: UInt32)
    requires g.width > 0 && FindField(fields, name).Some? && off == PointDataOffset(g, index)
    requires off + fields[FindField(fields, name).value].offset + 4 <= |d|
    requires v == WordAt(d, off + fields[FindField(fields, name).value].offset, bigEndian)
    ensures HoldsWord(d, g, fields, name, index, bigEndian, v)
  {
    PlaceIsOffset(g, fields, name, index);
    WordIsWord(d, off + fields[FindField(fields, name).value].offset, bigEndian);
  }

  lemma ByteHeld(d: seq<Byte>, g: Geometry, fields: seq<PointField>, name: string, index: nat, off: nat, b: Byte)
    requires g.width > 0 && FindField(fields, name).Some? && off == PointDataOffset(g, index)
    requires off + fields[FindField(fields, name).value].offset < |d|
    requires b == d[off + fields[FindField(fields, name).value].offset]
    ensures HoldsByte(d, g, fields, name, index, b)
  {
    PlaceIsOffset(g, fields, name, index);
  }

  predicate OffsetOf(fields: seq<PointField>, name: string, offset: nat) {
    FindField(fields, name).Some? && fields[FindField(fields, name).value].offset == offset
  }

  lemma SlotsByName(fields: seq<PointField>, pointStep: nat)
    requires HasPosition(fields, pointStep)
    ensures var s := SlotsOf(fields, pointStep);
            OffsetOf(fields, "x", s.x) && OffsetOf(fields, "y", s.y) && OffsetOf(fields, "z", s.z)
  {
  }

  // The colour slots are those of the fields of these names.
  predicate ChannelsOf(fields: seq<PointField>, c: ColorSlots) {
    && c.SeparateAt? && OffsetOf(fields, "r", c.red) && OffsetOf(fields, "g", c.green) && OffsetOf(fields, "b", c.blue)
    && (FindField(fields, "a").Some? <==> c.alpha.Some?)
    && (c.alpha.Some? ==> OffsetOf(fields, "a", c.alpha.value))
  }

  lemma ColorSlotsByName(fields: seq<PointField>, pointStep: nat)
    requires HasPosition(fields, pointStep)
    ensures var c := SlotsOf(fields, pointStep).color;
            if PackedQualifies(fields, "rgba", pointStep) then c.PackedAt? && OffsetOf(fields, "rgba", c.at)
            else if PackedQualifies(fields, "rgb", pointStep) then c.PackedAt? && OffsetOf(fields, "rgb", c.at)
            else if SeparateQualifies(fields, pointStep) then ChannelsOf(fields, c)
            else c == NoSlots
  {
    assert SlotsOf(fields, pointStep).color == ColorSlotsFor(fields, ChooseColor(fields, pointStep));
  }

  lemma PositionIsPlain(d: seq<Byte>, g: Geometry, fields: seq<PointField>, bigEndian: bool, index: nat,
                        off: nat, s: Slots, p: Position)
    requires OffsetOf(fields, "x", s.x) && OffsetOf(fields, "y", s.y) && OffsetOf(fields, "z", s.z)
    requires g.width > 0 && off == PointDataOffset(g, index) && Fits(s, off, g.pointStep, |d|)
    requires PositionAt(d, off, s, bigEndian, g.pointStep) == p
    ensures HoldsWord(d, g, fields, "x", index, bigEndian, p.x)
    ensures HoldsWord(d, g, fields, "y", index, bigEndian, p.y)
    ensures HoldsWord(d, g, fields, "z", index, bigEndian, p.z)
  {
    WordHeld(d, g, fields, "x", index, bigEndian, off, p.x);
    WordHeld(d, g, fields, "y", index, bigEndian, off, p.y);
    WordHeld(d, g, fields, "z", index, bigEndian, off, p.z);
  }

  lemma PackedIsPlain(d: seq<Byte>, g: Geometry, fields: seq<PointField>, name: string, bigEndian: bool, index: nat,
                      off: nat, s: Slots, c: Color)
    requires g.width > 0 && off == PointDataOffset(g, index) && Fits(s, off, g.pointStep, |d|)
    requires s.color.PackedAt? && OffsetOf(fields, name, s.color.at)
    requires HoldsColor(d, off, s, bigEndian, g.pointStep, c)
    ensures HoldsWord(d, g, fields, name, index, bigEndian, PackedValue(c))
  {
    PackedChannels(c);
    WordHeld(d, g, fields, name, index, bigEndian, off, PackedValue(c));
  }

  lemma SeparateIsPlain(d: seq<Byte>, g: Geometry, fields: seq<PointField>, bigEndian: bool, index: nat,
                        off: nat, s: Slots, c: Color)
    requires ChannelsOf(fields, s.color)
    requires g.width > 0 && off == PointDataOffset(g, index) && Fits(s, off, g.pointStep, |d|)
    requires HoldsColor(d, off, s, bigEndian, g.pointStep, c)
    ensures HoldsByte(d, g, fields, "r", index, c.red) && HoldsByte(d, g, fields, "g", index, c.green)
    ensures HoldsByte(d, g, fields, "b", index, c.blue)
    ensures FindField(fields, "a").Some? ==> HoldsByte(d, g, fields, "a", index, c.alpha)
  {
    ByteHeld(d, g, fields, "r", index, off, c.red);
    ByteHeld(d, g, fields, "g", index, off, c.green);
    ByteHeld(d, g, fields, "b", index, off, c.blue);
    if FindField(fields, "a").Some? {
      ByteHeld(d, g, fields, "a", index, off, c.alpha);
    }
  }

  lemma ColorIsPlain(d: seq<Byte>, g: Geometry, fields: seq<PointField>, bigEndian: bool, p: GeometryPoint,
                     off: nat, s: Slots)
    requires HasPosition(fields, g.pointStep) && s == SlotsOf(fields, g.pointStep)
    requires g.width > 0 && off == PointDataOffset(g, p.index) && Fits(s, off, g.pointStep, |d|)
    requires HoldsColor(d, off, s, bigEndian, g.pointStep, p.color)
    ensures PlainColor(d, g, fields, bigEndian, p)
  {
    ColorSlotsByName(fields, g.pointStep);
    if PackedQualifies(fields, "rgba", g.pointStep) {
      PackedIsPlain(d, g, fields, "rgba", bigEndian, p.index, off, s, p.color);
    } else if PackedQualifies(fields, "rgb", g.pointStep) {
      PackedIsPlain(d, g, fields, "rgb", bigEndian, p.index, off, s, p.color);
    } else if SeparateQualifies(fields, g.pointStep) {
      SeparateIsPlain(d, g, fields, bigEndian, p.index, off, s, p.color);
    }
  }

  // What the data holds for a point is in its bytes as the source has it.
  lemma HeldPointIsPlain(d: seq<Byte>, g: Geometry, fields: seq<PointField>, bigEndian: bool, p: GeometryPoint)
    requires HasPosition(fields, g.pointStep) && HoldsAt(g, SlotsOf(fields, g.pointStep), bigEndian, d, p)
    ensures PlainPoint(d, g, fields, bigEndian, p)
  {
    var s, off := SlotsOf(fields, g.pointStep), PointDataOffset(g, p.index);
    SlotsByName(fields, g.pointStep);
    PositionIsPlain(d, g, fields, bigEndian, p.index, off, s, p.position);
    ColorIsPlain(d, g, fields, bigEndian, p, off, s);
  }

  lemma SubmittedHeld(m: PointCloud2, s: Slots, i: nat)
    requires m.geometry.width > 0 && i < 0x1_0000_0000
    requires Fits(s, PointDataOffset(m.geometry, i), m.geometry.pointStep, |m.data|)
    ensures HoldsAt(m.geometry, s, m.isBigEndian, m.data, SubmittedPoint(m, s, i))
    ensures s.color.SeparateAt? && s.color.alpha.None? ==> SubmittedPoint(m, s, i).color.alpha == 255
  {
    if s.color != NoSlots {
      OwnColor(m.data, PointDataOffset(m.geometry, i), s, m.isBigEndian, m.geometry.pointStep);
    }
  }

  // Encode submits one point per place of the grid, in order, read from the message's own bytes,
  // and colour exactly when the fields have one; without an alpha field alpha is 255.
  lemma EncodedFromBytes(m: PointCloud2, codec: GeometryCodec, e: EncodedPointCloud)
    returns (points: seq<GeometryPoint>)
    requires EncodesTo(m, codec, e) && m.geometry.width * m.geometry.height > 0
    ensures |points| == m.geometry.width * m.geometry.height
    ensures codec.encode(points, HasColor(m.fields, m.geometry.pointStep)) == Some(e.payload)
    ensures forall i :: 0 <= i < |points| ==>
              points[i].index == i && PlainPoint(m.data, m.geometry, m.fields, m.isBigEndian, points[i])
    ensures !PackedQualifies(m.fields, "rgba", m.geometry.pointStep)
            && !PackedQualifies(m.fields, "rgb", m.geometry.pointStep)
            && SeparateQualifies(m.fields, m.geometry.pointStep) && FindField(m.fields, "a").None?
        ==> forall i :: 0 <= i < |points| ==> points[i].color.alpha == 255
  {
    var s, color := SlotsOf(m.fields, m.geometry.pointStep), ChooseColor(m.fields, m.geometry.pointStep);
    points :| Submitted(m, s, points) && codec.encode(points, color != NoColor) == Some(e.payload);
    ColorSlotsByName(m.fields, m.geometry.pointStep);
    forall i | 0 <= i < |points|
      ensures points[i].index == i && PlainPoint(m.data, m.geometry, m.fields, m.isBigEndian, points[i])
      ensures s.color.SeparateAt? && s.color.alpha.None? ==> points[i].color.alpha == 255
    {
      SubmittedHeld(m, s, i);
      HeldPointIsPlain(m.data, m.geometry, m.fields, m.isBigEndian, points[i]);
    }
  }

  // Decode leaves every returned point in the message's bytes at the place its index names.
  lemma DecodedIntoBytes(input: EncodedPointCloud, codec: GeometryCodec, m: PointCloud2, k: nat)
    requires Decodable(input, codec) && Decodes(input, codec, m)
    requires input.geometry.width * input.geometry.height > 0
    requires k < |codec.decode(input.payload).value.points|
    ensures PlainPoint(m.data, input.geometry, input.fields, input.isBigEndian,
                       codec.decode(input.payload).value.points[k])
  {
    var p := codec.decode(input.payload).value.points[k];
    assert HoldsAt(input.geometry, SlotsOf(input.fields, input.geometry.pointStep), input.isBigEndian, m.data, p);
    HeldPointIsPlain(m.data, input.geometry, input.fields, input.isBigEndian, p);
  }

  // The fixed parts of an encoding, and the storage both sides insist on, in numbers
  lemma EncodedHeader(m: PointCloud2, codec: GeometryCodec, e: EncodedPointCloud)
    requires EncodesTo(m, codec, e)
    ensures e.codec == "draco" && e.formatVersion == 2
    ensures e.geometry.width * e.geometry.height > 0 && HasColor(m.fields, m.geometry.pointStep)
       <==> e.pointType == "xyzrgb"
    ensures e.geometry.width * e.geometry.height == 0 || !HasColor(m.fields, m.geometry.pointStep)
       <==> e.pointType == "xyz"
    ensures e.header == m.header && e.geometry == m.geometry && e.fields == m.fields
    ensures e.isBigEndian == m.isBigEndian && e.isDense == m.isDense
    ensures e.sourceStamp == m.header.stamp && e.frameId == m.header.frameId
  {
    assert "xyz" != "xyzrgb" by {
      assert |"xyz"| == 3 && |"xyzrgb"| == 6;
    }
  }

  lemma StorageInNumbers(g: Geometry, dataSize: nat)
    ensures StorageValid(g, dataSize)
       <==> (&& !(g.height == 0 && g.width != 0)
             && g.width * g.pointStep <= g.rowStep
             && g.rowStep * g.height == dataSize
             && g.width * g.height <= 2147483647
             && !(g.width * g.height > 0 && g.pointStep == 0))
  {
  }
}
