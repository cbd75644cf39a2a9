/**
 Words and colours inside a point, and the byte offsets of its encoded fields:
 transport/draco_pointcloud_codec.cpp, lines 177-194 and 244-320.
 */
module PointSlots {
  import opened Common
  import opened PointLayout

  // ----- Words and colours -----

  // The word with the given bytes, most significant first
  function Word(b3: int, b2: int, b1: int, b0: int): int {
    ((b3 * 0x100 + b2) * 0x100 + b1) * 0x100 + b0
  }

  function WordAt(d: seq<Byte>, at: nat, bigEndian: bool): UInt32
    requires at + 4 <= |d|
  {
    if bigEndian then Word(d[at], d[at + 1], d[at + 2], d[at + 3])
    else Word(d[at + 3], d[at + 2], d[at + 1], d[at])
  }

  // Shifting a 32-bit value right by whole bytes gives its bytes.
  lemma WordBytes(v: UInt32)
    ensures 0 <= v / 0x100_0000 < 0x100
    ensures v == Word(v / 0x100_0000, v / 0x1_0000 % 0x100, v / 0x100 % 0x100, v % 0x100)
  {
    assert v / 0x1_0000 == v / 0x100 / 0x100;
    assert v / 0x100_0000 == v / 0x1_0000 / 0x100;
  }

  lemma WordUnique(a3: Byte, a2: Byte, a1: Byte, a0: Byte, b3: Byte, b2: Byte, b1: Byte, b0: Byte)
    requires Word(a3, a2, a1, a0) == Word(b3, b2, b1, b0)
    ensures a3 == b3 && a2 == b2 && a1 == b1 && a0 == b0
  {
  }

  // A word determines its four bytes.
  lemma WordInjective(a: seq<Byte>, b: seq<Byte>, at: nat, bigEndian: bool)
    requires at + 4 <= |a| && at + 4 <= |b|
    requires WordAt(a, at, bigEndian) == WordAt(b, at, bigEndian)
    ensures forall i :: at <= i < at + 4 ==> a[i] == b[i]
  {
    if bigEndian {
      WordUnique(a[at], a[at + 1], a[at + 2], a[at + 3], b[at], b[at + 1], b[at + 2], b[at + 3]);
    } else {
      WordUnique(a[at + 3], a[at + 2], a[at + 1], a[at], b[at + 3], b[at + 2], b[at + 1], b[at]);
    }
    forall i | at <= i < at + 4
      ensures a[i] == b[i]
    {
      assert i == at || i == at + 1 || i == at + 2 || i == at + 3;
    }
  }

  // The four bytes of the value, most significant first or last
  predicate IsWord(bytes: seq<Byte>, bigEndian: bool, v: UInt32) {
    bytes == if bigEndian then [v / 0x100_0000, v / 0x1_0000 % 0x100, v / 0x100 % 0x100, v % 0x100]
             else [v % 0x100, v / 0x100 % 0x100, v / 0x1_0000 % 0x100, v / 0x100_0000]
  }

  // What a word is in bytes
  lemma WordIsWord(d: seq<Byte>, at: nat, bigEndian: bool)
    requires at + 4 <= |d|
    ensures IsWord(d[at..at + 4], bigEndian, WordAt(d, at, bigEndian))
  {
    var v := WordAt(d, at, bigEndian);
    WordBytes(v);
    if bigEndian {
      WordUnique(d[at], d[at + 1], d[at + 2], d[at + 3],
                 v / 0x100_0000, v / 0x1_0000 % 0x100, v / 0x100 % 0x100, v % 0x100);
    } else {
      WordUnique(d[at + 3], d[at + 2], d[at + 1], d[at],
                 v / 0x100_0000, v / 0x1_0000 % 0x100, v / 0x100 % 0x100, v % 0x100);
    }
  }

  // The two data agree from lo to hi.
  ghost predicate Agree(a: seq<Byte>, b: seq<Byte>, lo: nat, hi: nat) {
    |a| == |b| && hi <= |a| && forall i :: lo <= i < hi ==> a[i] == b[i]
  }

  // They agree everywhere else.
  ghost predicate Framed(a: seq<Byte>, b: seq<Byte>, lo: nat, hi: nat) {
    |a| == |b| && forall i :: 0 <= i < |a| && !(lo <= i < hi) ==> a[i] == b[i]
  }

  lemma WordFrame(a: seq<Byte>, b: seq<Byte>, at: nat, bigEndian: bool)
    requires Agree(a, b, at, at + 4)
    ensures WordAt(a, at, bigEndian) == WordAt(b, at, bigEndian)
  {
  }

  method WriteUint32(value: UInt32, bigEndian: bool, data: array<Byte>, at: nat)
    requires at + 4 <= data.Length
    modifies data
    ensures WordAt(data[..], at, bigEndian) == value
    ensures IsWord(data[at..at + 4], bigEndian, value)
    ensures Framed(old(data[..]), data[..], at, at + 4)
  {
    WordBytes(value);
    var b3, b2, b1, b0 := value / 0x100_0000, value / 0x1_0000 % 0x100, value / 0x100 % 0x100, value % 0x100;
    if bigEndian {
      data[at], data[at + 1], data[at + 2], data[at + 3] := b3, b2, b1, b0;
    } else {
      data[at], data[at + 1], data[at + 2], data[at + 3] := b0, b1, b2, b3;
    }
  }

  datatype Color = Color(red: Byte, green: Byte, blue: Byte, alpha: Byte)

  function Pack(c: Color): UInt32 {
    Word(c.alpha, c.red, c.green, c.blue)
  }

  function Unpack(w: UInt32): Color {
    WordBytes(w);
    Color(w / 0x1_0000 % 0x100, w / 0x100 % 0x100, w % 0x100, w / 0x100_0000)
  }

  lemma PackUnpack(w: UInt32, c: Color)
    ensures Pack(Unpack(w)) == w
    ensures Unpack(Pack(c)) == c
  {
    WordBytes(w);
    WordBytes(Pack(c));
    var d := Unpack(Pack(c));
    WordUnique(c.alpha, c.red, c.green, c.blue, d.alpha, d.red, d.green, d.blue);
  }

  // A packed colour is alpha, red, green and blue from the most significant byte down.
  lemma PackedChannels(c: Color)
    ensures Pack(c) == c.alpha * 0x100_0000 + c.red * 0x1_0000 + c.green * 0x100 + c.blue
  {
  }

  datatype Position = Position(x: UInt32, y: UInt32, z: UInt32)

  // ----- Byte offsets of the encoded fields in a point -----

  datatype ColorSlots =
    | NoSlots
    | PackedAt(at: nat)
    | SeparateAt(red: nat, green: nat, blue: nat, alpha: Option<nat>)

  datatype Slots = Slots(x: nat, y: nat, z: nat, color: ColorSlots)

  predicate InWord(byte: nat, at: nat) {
    at <= byte < at + 4
  }

  predicate IsXyz(s: Slots, byte: nat) {
    InWord(byte, s.x) || InWord(byte, s.y) || InWord(byte, s.z)
  }

  predicate IsColor(c: ColorSlots, byte: nat) {
    match c
    case NoSlots => false
    case PackedAt(at) => InWord(byte, at)
    case SeparateAt(r, g, b, a) => byte == r || byte == g || byte == b || a == Some(byte)
  }

  predicate WordsApart(a: nat, b: nat) {
    a + 4 <= b || b + 4 <= a
  }

  // Inside the point, pairwise disjoint
  predicate WellPlaced(s: Slots, pointStep: nat) {
    && s.x + 4 <= pointStep && s.y + 4 <= pointStep && s.z + 4 <= pointStep
    && WordsApart(s.x, s.y) && WordsApart(s.x, s.z) && WordsApart(s.y, s.z)
    && match s.color
       case NoSlots => true
       case PackedAt(at) =>
         at + 4 <= pointStep && WordsApart(at, s.x) && WordsApart(at, s.y) && WordsApart(at, s.z)
       case SeparateAt(r, g, b, a) =>
         && r < pointStep && g < pointStep && b < pointStep
         && !IsXyz(s, r) && !IsXyz(s, g) && !IsXyz(s, b)
         && r != g && r != b && g != b
         && (a.Some? ==> a.value < pointStep && !IsXyz(s, a.value)
                         && a.value != r && a.value != g && a.value != b)
  }

  function ColorSlotsFor(fields: seq<PointField>, c: ColorLayout): ColorSlots
    requires InRange(fields, ColorFields(c))
  {
    match c
    case NoColor => NoSlots
    case Packed(f) =>
      assert ColorFields(c)[0] == f;
      PackedAt(fields[f].offset)
    case Separate(r, g, b, a) =>
      assert ColorFields(c)[0] == r && ColorFields(c)[1] == g && ColorFields(c)[2] == b;
      assert a.Some? ==> ColorFields(c)[3] == a.value;
      SeparateAt(fields[r].offset, fields[g].offset, fields[b].offset,
                 if a.None? then None else Some(fields[a.value].offset))
  }

  predicate InRange(fields: seq<PointField>, list: seq<nat>) {
    forall k :: 0 <= k < |list| ==> list[k] < |fields|
  }

  function SlotsFor(fields: seq<PointField>, x: nat, y: nat, z: nat, c: ColorLayout): Slots
    requires x < |fields| && y < |fields| && z < |fields| && InRange(fields, ColorFields(c))
  {
    Slots(fields[x].offset, fields[y].offset, fields[z].offset, ColorSlotsFor(fields, c))
  }

  function SlotsOf(fields: seq<PointField>, pointStep: nat): Slots
    requires HasPosition(fields, pointStep)
  {
    var l := LayoutOf(fields, pointStep);
    SlotsFor(fields, l.x, l.y, l.z, l.color)
  }

  // Sizes and disjointness of a chosen set of encoded fields
  ghost predicate Chosen(fields: seq<PointField>, x: nat, y: nat, z: nat, c: ColorLayout, pointStep: nat) {
    && x < |fields| && y < |fields| && z < |fields| && InRange(fields, ColorFields(c))
    && InRange(fields, EncodedFields(x, y, z, c))
    && (forall i :: 0 <= i < |fields| ==> FieldFits(fields[i], pointStep))
    && Size(fields[x]) == Size(fields[y]) == Size(fields[z]) == 4
    && ColorSizes(fields, c)
    && Disjoint(fields, EncodedFields(x, y, z, c))
  }

  ghost predicate ColorSizes(fields: seq<PointField>, c: ColorLayout)
    requires InRange(fields, ColorFields(c))
  {
    var list := ColorFields(c);
    forall k :: 0 <= k < |list| ==> Size(fields[list[k]]) == if c.Packed? then 4 else 1
  }

  lemma ChosenColorSizes(fields: seq<PointField>, pointStep: nat)
    ensures ColorSizes(fields, ChooseColor(fields, pointStep))
  {
    ScalarColorSizes(fields, ChooseColor(fields, pointStep), pointStep);
  }

  lemma ScalarColorSizes(fields: seq<PointField>, c: ColorLayout, pointStep: nat)
    requires InRange(fields, ColorFields(c))
    requires c.Packed? ==> c.field < |fields| && IsScalar(fields, Some(c.field), {FLOAT32, UINT32}, pointStep)
    requires c.Separate? ==> c.red < |fields| && IsScalar(fields, Some(c.red), {UINT8}, pointStep)
    requires c.Separate? ==> c.green < |fields| && IsScalar(fields, Some(c.green), {UINT8}, pointStep)
    requires c.Separate? ==> c.blue < |fields| && IsScalar(fields, Some(c.blue), {UINT8}, pointStep)
    requires c.Separate? && c.alpha.Some? ==> c.alpha.value < |fields|
    requires c.Separate? && c.alpha.Some? ==> IsScalar(fields, c.alpha, {UINT8}, pointStep)
    ensures ColorSizes(fields, c)
  {
  }

  lemma AcceptableIsChosen(fields: seq<PointField>, pointStep: nat)
    requires Acceptable(fields, pointStep)
    ensures var l := LayoutOf(fields, pointStep);
            Chosen(fields, l.x, l.y, l.z, l.color, pointStep)
  {
    ChosenColorSizes(fields, pointStep);
  }

  // The spans share no byte.
  predicate Apart(f: PointField, g: PointField) {
    f.offset + Size(f) <= g.offset || g.offset + Size(g) <= f.offset
  }

  lemma ColorPlaced(fields: seq<PointField>, x: nat, y: nat, z: nat, c: ColorLayout, pointStep: nat, k: nat)
    requires Chosen(fields, x, y, z, c, pointStep) && k < |ColorFields(c)|
    ensures var f := fields[ColorFields(c)[k]];
            && Size(f) == (if c.Packed? then 4 else 1) && f.offset + Size(f) <= pointStep
            && Apart(fields[x], f) && Apart(fields[y], f) && Apart(fields[z], f)
    ensures forall j :: 0 <= j < k ==> Apart(fields[ColorFields(c)[j]], fields[ColorFields(c)[k]])
  {
    var list := EncodedFields(x, y, z, c);
    assert list[0] == x && list[1] == y && list[2] == z && list[3 + k] == ColorFields(c)[k];
    assert !SpansOverlap(fields[list[0]], fields[list[3 + k]]);
    assert !SpansOverlap(fields[list[1]], fields[list[3 + k]]);
    assert !SpansOverlap(fields[list[2]], fields[list[3 + k]]);
    forall j | 0 <= j < k
      ensures Apart(fields[ColorFields(c)[j]], fields[ColorFields(c)[k]])
    {
      assert list[3 + j] == ColorFields(c)[j];
      assert !SpansOverlap(fields[list[3 + j]], fields[list[3 + k]]);
    }
  }

  lemma PositionPlaced(fields: seq<PointField>, x: nat, y: nat, z: nat, c: ColorLayout, pointStep: nat)
    requires Chosen(fields, x, y, z, c, pointStep)
    ensures fields[x].offset + 4 <= pointStep && fields[y].offset + 4 <= pointStep
    ensures fields[z].offset + 4 <= pointStep && Apart(fields[x], fields[y])
    ensures Apart(fields[x], fields[z]) && Apart(fields[y], fields[z])
  {
    var list := EncodedFields(x, y, z, c);
    assert list[0] == x && list[1] == y && list[2] == z;
    assert !SpansOverlap(fields[list[0]], fields[list[1]]);
    assert !SpansOverlap(fields[list[0]], fields[list[2]]);
    assert !SpansOverlap(fields[list[1]], fields[list[2]]);
  }

  lemma PackedPlaced(fields: seq<PointField>, x: nat, y: nat, z: nat, c: ColorLayout, pointStep: nat)
    requires Chosen(fields, x, y, z, c, pointStep) && c.Packed?
    ensures WellPlaced(SlotsFor(fields, x, y, z, c), pointStep)
  {
    PositionPlaced(fields, x, y, z, c, pointStep);
    ColorPlaced(fields, x, y, z, c, pointStep, 0);
  }

  lemma OutsideXyz(s: Slots, fx: PointField, fy: PointField, fz: PointField, f: PointField)
    requires s.x == fx.offset && s.y == fy.offset && s.z == fz.offset
    requires Size(fx) == Size(fy) == Size(fz) == 4 && Size(f) == 1
    requires Apart(fx, f) && Apart(fy, f) && Apart(fz, f)
    ensures !IsXyz(s, f.offset)
  {
  }

  lemma SeparatePlaced(fields: seq<PointField>, x: nat, y: nat, z: nat, c: ColorLayout, pointStep: nat, k: nat)
    requires Chosen(fields, x, y, z, c, pointStep) && c.Separate? && k < |ColorFields(c)|
    ensures var f := fields[ColorFields(c)[k]];
            f.offset < pointStep && !IsXyz(SlotsFor(fields, x, y, z, c), f.offset)
    ensures forall j :: 0 <= j < k ==> fields[ColorFields(c)[j]].offset != fields[ColorFields(c)[k]].offset
  {
    ColorPlaced(fields, x, y, z, c, pointStep, k);
    OutsideXyz(SlotsFor(fields, x, y, z, c), fields[x], fields[y], fields[z], fields[ColorFields(c)[k]]);
  }

  lemma PlacedFor(fields: seq<PointField>, x: nat, y: nat, z: nat, c: ColorLayout, pointStep: nat)
    requires Chosen(fields, x, y, z, c, pointStep)
    ensures WellPlaced(SlotsFor(fields, x, y, z, c), pointStep)
  {
    if c.Packed? {
      PackedPlaced(fields, x, y, z, c, pointStep);
    } else {
      PositionPlaced(fields, x, y, z, c, pointStep);
      if c.Separate? {
        SeparatePlaced(fields, x, y, z, c, pointStep, 0);
        SeparatePlaced(fields, x, y, z, c, pointStep, 1);
        SeparatePlaced(fields, x, y, z, c, pointStep, 2);
        if c.alpha.Some? {
          SeparatePlaced(fields, x, y, z, c, pointStep, 3);
        }
      }
    }
  }

  lemma InEither(fields: seq<PointField>, a: seq<nat>, b: seq<nat>, byte: nat)
    requires InRange(fields, a) && InRange(fields, b)
    ensures InRange(fields, a + b)
    ensures InFields(fields, a + b, byte) <==> InFields(fields, a, byte) || InFields(fields, b, byte)
  {
    if InFields(fields, a, byte) {
      var k :| 0 <= k < |a| && Covers(fields[a[k]], byte);
      assert (a + b)[k] == a[k];
    }
    if InFields(fields, b, byte) {
      var k :| 0 <= k < |b| && Covers(fields[b[k]], byte);
      assert (a + b)[|a| + k] == b[k];
    }
  }

  lemma InThree(fields: seq<PointField>, x: nat, y: nat, z: nat, byte: nat)
    requires x < |fields| && y < |fields| && z < |fields|
    ensures InFields(fields, [x, y, z], byte)
       <==> Covers(fields[x], byte) || Covers(fields[y], byte) || Covers(fields[z], byte)
  {
    var list := [x, y, z];
    assert list[0] == x && list[1] == y && list[2] == z;
  }

  lemma InOne(fields: seq<PointField>, f: nat, byte: nat)
    requires f < |fields|
    ensures InFields(fields, [f], byte) <==> Covers(fields[f], byte)
  {
    assert [f][0] == f;
  }

  lemma ColorMask(fields: seq<PointField>, c: ColorLayout, byte: nat)
    requires InRange(fields, ColorFields(c)) && ColorSizes(fields, c)
    ensures InFields(fields, ColorFields(c), byte) <==> IsColor(ColorSlotsFor(fields, c), byte)
  {
    match c
    case NoColor =>
    case Packed(f) =>
      assert ColorFields(c)[0] == f;
      InOne(fields, f, byte);
    case Separate(r, g, b, a) =>
      ChannelMask(fields, r, g, b, a, byte);
  }

  lemma ChannelMask(fields: seq<PointField>, r: nat, g: nat, b: nat, a: Option<nat>, byte: nat)
    requires InRange(fields, ColorFields(Separate(r, g, b, a))) && ColorSizes(fields, Separate(r, g, b, a))
    ensures InFields(fields, ColorFields(Separate(r, g, b, a)), byte)
       <==> IsColor(ColorSlotsFor(fields, Separate(r, g, b, a)), byte)
  {
    var list := ColorFields(Separate(r, g, b, a));
    assert list[0] == r && list[1] == g && list[2] == b;
    InThree(fields, r, g, b, byte);
    if a.Some? {
      assert list[3] == a.value;
      InOne(fields, a.value, byte);
      InEither(fields, [r, g, b], [a.value], byte);
    } else {
      assert list == [r, g, b];
    }
  }

  lemma MaskFor(fields: seq<PointField>, x: nat, y: nat, z: nat, c: ColorLayout, pointStep: nat, byte: nat)
    requires Chosen(fields, x, y, z, c, pointStep)
    ensures InFields(fields, EncodedFields(x, y, z, c), byte)
       <==> (IsXyz(SlotsFor(fields, x, y, z, c), byte) || IsColor(SlotsFor(fields, x, y, z, c).color, byte))
  {
    InThree(fields, x, y, z, byte);
    ColorMask(fields, c, byte);
    InEither(fields, [x, y, z], ColorFields(c), byte);
  }

  lemma SlotsPlaced(fields: seq<PointField>, pointStep: nat)
    requires Acceptable(fields, pointStep)
    ensures WellPlaced(SlotsOf(fields, pointStep), pointStep)
  {
    var l := LayoutOf(fields, pointStep);
    AcceptableIsChosen(fields, pointStep);
    PlacedFor(fields, l.x, l.y, l.z, l.color, pointStep);
  }

  // The mask marks exactly the slots.
  lemma MaskIsSlots(fields: seq<PointField>, pointStep: nat, byte: nat)
    requires Acceptable(fields, pointStep) && byte < pointStep
    ensures LayoutOf(fields, pointStep).mask[byte]
       <==> (IsXyz(SlotsOf(fields, pointStep), byte) || IsColor(SlotsOf(fields, pointStep).color, byte))
  {
    var l := LayoutOf(fields, pointStep);
    AcceptableIsChosen(fields, pointStep);
    MaskFor(fields, l.x, l.y, l.z, l.color, pointStep, byte);
  }
}
